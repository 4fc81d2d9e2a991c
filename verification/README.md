# Hypervisor and xv6 guest: models and proofs

This project models the parts of an Armv8 hypervisor and of the xv6 kernel it runs that keep
state with hard invariants, and proves what they promise.

- **Write-ahead log** (`WriteAheadLog.dfy`, `LogCode.dfy`). The log as a state machine whose steps
  are single block writes, with a crash possible between any two of them; and the code of `log.c`,
  whose loops are proved to be runs of that machine.
- **Buffer cache** (`BufferList.dfy`, `BufferCache.dfy`). The doubly linked list and the buffers of
  `bio.c`, one critical section at a time.
- **File system** (`FsBlocks.dfy`, `FsCode.dfy`). Block ownership and the byte sequence of every
  inode, with the code of `fs.c` and the chunk loop of `filewrite`.
- **Virtqueue** (`Virtqueue.dfy`, `VirtioCode.dfy`). Driver, device and interrupt interleaved over
  the rings with their 16-bit indices (VIRTIO v1.1, sections 2.6.5 to 2.6.8 and 5.2.6).
- **Processes** (`SleepWakeup.dfy`, `ProcessTree.dfy`). The steps between lock operations of
  scheduler, sleep, wakeup, fork, exit and wait, in any interleaving.
- **Memory** (`PageTree.dfy`, `TableCount.dfy`, `GuestPages.dfy`, `TablePrune.dfy`,
  `GuestMemory.dfy`, `Stage2.dfy`, `PageAllocator.dfy`, `KrHeap.dfy`, `KrMalloc.dfy`). Page tables
  as frames in memory, the map they stand for, the one use every frame has and the number of tables
  a range of pages needs, for the guest's three levels and the four of stage 2;
  the bitmap page allocator; and the allocator of Kernighan and Ritchie, section 8.7.
- **Algorithms** (`TicketLock.dfy`, `MulDiv.dfy`, `Grep.dfy`, `ShellGrammar.dfy`,
  `ShellUnique.dfy`, `ShellParser.dfy`). The ticket lock
  (Arm DDI0487I.a, appendix K13), the 64x32/32 multiply-divide, the matcher of Kernighan and Pike,
  and the shell parser, whose grammar is proved unambiguous and which ends its words in the input
  line.

`Runs.dfy`, `Pigeonhole.dfy`, `Bits.dfy` and `Options.dfy` hold induction over runs, counting, bits of
numbers, and optional values.

A machine is a state, a step relation and the set of its runs; a lemma about runs holds in every
state of every run, whatever the interleaving. Code that works in place is a class whose methods
keep its fields and a ghost value that says what they mean. A panic is an outcome of the method.

Where the code does less than its documentation suggests, the code is modelled as it is:

- `log_write` panics on a full log before it looks whether the block is in it, so a write within
  its reservation can be refused whatever the size of the log (`WriteAheadLog.SomeRefusedIff`); a
  new block can be refused unless the log has more than LOGSIZE blocks
  (`WriteAheadLog.NewBlocksSafeIff`, `WriteAheadLog.MkfsLayoutRefuses`). A
  commit of NBUF blocks finds no buffer (`BufferCache.Cache.Commit`); it comes to that in some run
  if and only if the log has more than LOGSIZE blocks and there are NBUF blocks outside it
  (`BufferCache.AllPinnedIff`).
- `writei` may leave bytes in the file that it does not report (`FsCode.OnlyReportedIff`).
- A search for several pages may answer with a range that runs past the end of the pool
  (`PageAllocator.FitsIff`), and the range check of `free_pages` can wrap
  (`PageAllocator.FreeWraps`, `PageAllocator.FreeExactIff`).
- `ipa2pa` answers with the offset, not 0, for a missing entry in an existing table, so mapping a
  page can change the answer for its unmapped neighbours (`Stage2.OthersKeptIff`).
- The sector number of a request is computed in 32 bits (`Virtqueue.SectorWraps`,
  `Virtqueue.SectorExactIff`), and malloc passes a number of bytes to an int argument
  (`KrMalloc.SbrkGarbled`, `KrMalloc.SbrkExactIff`).
- The conversions of the timer wrap, and then do not come back (`MulDiv.RoundTripsWrap`,
  `MulDiv.RoundTrip`, `MulDiv.RoundTripCount`).
- `page_allocator_init` clears as many bytes of the bitmap as it has words, so it frees every page
  only over a bitmap that was clear behind them (`PageAllocator.InitLeavesUsed`,
  `PageAllocator.InitFreesAllIff`).
- The allocator answers -1 when it has no page, and its callers test for 0. The model stops there
  (`Stage2.Tables.CreateVm`).

## Model

| member | source | states |
|---|---|---|
| `WriteAheadLog.CommitPoint` | guest/xv6/kernel/log.c:102-114 | At every step of every run a crash before and a crash after recover to recorded images with the same home blocks, but at the header write, which moves recovery from the image before the transaction to the one after it. |
| `WriteAheadLog.OneRecovery` | guest/xv6/kernel/log.c:116-123 | What recovery makes of a disk is determined by the disk. |
| `WriteAheadLog.InstallKeepsRecovery` | guest/xv6/kernel/log.c:68-83 | Copying any one logged block home does not change what a later recovery produces, so recovery can be interrupted and repeated. |
| `WriteAheadLog.NextInv` | guest/xv6/kernel/log.c:126-235 | Every step of begin_op, log_write, end_op, each single block write of commit and of recovery, and a crash at any point, keeps the invariant of the log. |
| `WriteAheadLog.RunInv` | guest/xv6/kernel/log.c:126-235 | The invariant holds in every state of every run. |
| `WriteAheadLog.StepKeepsReturned` | guest/xv6/kernel/log.c:146-175 | No step forgets a transaction whose commit has returned. |
| `WriteAheadLog.CrashAtomicity` | guest/xv6/kernel/log.c:116-123 | In every run, with crashes between any two block writes and any number of them, the system is running only with home blocks equal to the state after a whole prefix of the transactions. |
| `WriteAheadLog.Durability` | guest/xv6/kernel/log.c:193-203 | That prefix never shrinks below the transactions whose commit returned, whatever crashes and recoveries follow. |
| `WriteAheadLog.LogSpace` | guest/xv6/kernel/log.c:126-143 | In every interleaving the logged blocks and the unused reservations of the operations in progress stay within LOGSIZE, a commit never overlaps an operation, and every slot lies inside the log region. |
| `WriteAheadLog.PanicsWhenFull` | guest/xv6/kernel/log.c:214-235 | An operation within its reservation is refused by log_write exactly if size - 1 blocks are logged, also when the block is logged already. |
| `WriteAheadLog.SomeRefusedIff` | guest/xv6/kernel/log.c:219-235 | For every layout, some run ends with a write within its reservation that log_write refuses, exactly if there are blocks enough outside the log to fill it; with a larger log it is a write that would only be absorbed. |
| `WriteAheadLog.NewBlocksSafeIff` | guest/xv6/kernel/log.c:219-235 | No block new to the log and within its reservation is ever refused, in any run, if and only if the log has more than LOGSIZE blocks or the disk too few others. |
| `WriteAheadLog.MkfsLayoutRefuses` | guest/xv6/mkfs/mkfs.c:25 | With the log that mkfs lays out there is a run in which a new block within its reservation is refused. |
| `WriteAheadLog.Fill` | guest/xv6/kernel/log.c:126-143 | A run that fills the log with three operations, each within its share. |
| `LogCode.Log.BeginOp` | guest/xv6/kernel/log.c:126-143 | Admits an operation exactly if no commit runs and ten more blocks fit beside the reservations. |
| `LogCode.Log.LogWrite` | guest/xv6/kernel/log.c:214-235 | Absorbs a block already logged, appends a new one, and panics exactly when full. |
| `LogCode.Log.WriteLog` | guest/xv6/kernel/log.c:178-190 | The loop is a run of the machine; afterwards every slot holds its logged block in the cache and on disk, and no block outside the slots changed. |
| `LogCode.Log.InstallTrans` | guest/xv6/kernel/log.c:68-83 | The loop is a run of the machine; afterwards every logged block is at home as its slot has it, and no block the header does not name changed. |
| `LogCode.Log.Commit` | guest/xv6/kernel/log.c:193-203 | The four stages in order are a run of the machine; the log is empty afterwards. |
| `LogCode.Log.EndOp` | guest/xv6/kernel/log.c:146-175 | The last operation to end commits: the home blocks become the cached contents, and every state on the way recovers to the old or the new contents. |
| `LogCode.Log.RecoverFromLog` | guest/xv6/kernel/log.c:116-123 | Recovery ends with the home blocks at the last committed state and an empty log. |
| `LogCode.Log.Settled` | guest/xv6/kernel/log.c:193-203 | All states of a commit recover to the contents before it or after it. |
| `BufferList.Consistent` | guest/xv6/kernel/bio.c:36-53 | next and prev are inverse to one another on all buffers and the head. |
| `BufferList.FrontLinked` | guest/xv6/kernel/bio.c:125-133 | The six pointer assignments of brelse yield the circle with the buffer moved to the front, from any position. |
| `BufferCache.Binit` | guest/xv6/kernel/bio.c:36-53 | The loop of binit builds a circle through all buffers. |
| `BufferCache.Cache.constructor` | guest/xv6/kernel/bio.c:36-53 | After binit no buffer is referred to, locked or valid. |
| `BufferCache.Cache.Find` | guest/xv6/kernel/bio.c:65-73 | The forward loop finds the buffer of the block if there is one. |
| `BufferCache.Cache.FindUnused` | guest/xv6/kernel/bio.c:75-87 | The backward loop finds the least recently used buffer that is not referred to, exactly if there is one. |
| `BufferCache.Cache.Bget` | guest/xv6/kernel/bio.c:58-89 | Returns the block's buffer or recycles the least recently used one; panics exactly if the block is not cached and every buffer is referred to; a block of a real device never gets two buffers. |
| `BufferCache.RecycleCoherent` | guest/xv6/kernel/bio.c:77-83 | Reusing a buffer for another block loses nothing, because an unreferenced buffer agrees with the disk. |
| `BufferCache.Cache.Bread` | guest/xv6/kernel/bio.c:92-103 | Returns the block with what was last stored in it, wherever that was kept; sleeps with its reference exactly if the buffer is locked; panics exactly if every buffer is referred to and none is the block's. |
| `BufferCache.Cache.Bwrite` | guest/xv6/kernel/bio.c:106-112 | Puts the buffer on disk; what was last stored in any block is unchanged. |
| `BufferCache.Cache.Brelse` | guest/xv6/kernel/bio.c:116-137 | Unlocks, drops a reference, and moves the buffer to the front exactly if it was the last one. |
| `BufferCache.Cache.Drop` | guest/xv6/kernel/bio.c:123-137 | The critical section of brelse, also when another process has locked the buffer since it was unlocked. |
| `BufferCache.Cache.Bpin` | guest/xv6/kernel/bio.c:139-144 | One reference more. |
| `BufferCache.Cache.Bunpin` | guest/xv6/kernel/bio.c:146-151 | One reference less, of a buffer that is written or still referred to. |
| `BufferCache.Cache.LogBlock` | guest/xv6/kernel/log.c:214-235 | A block read, changed and given to log_write is pinned once, however often it is logged; the other references stay. |
| `BufferCache.Cache.CopyToLog` | guest/xv6/kernel/log.c:182-189 | One turn of write_log finds its buffers exactly if a buffer is left beside those of the pinned blocks; it writes the latest contents of the pinned block to the log block and leaves the references as they were. |
| `BufferCache.Cache.WriteLog` | guest/xv6/kernel/log.c:178-190 | The whole loop finds its buffers exactly if a buffer is left over, and then every pinned block is in its log block and nothing else changed. |
| `BufferCache.Cache.WriteHead` | guest/xv6/kernel/log.c:102-114 | The header block gets the numbers of the logged blocks, in the cache and on disk, with the references as they were. |
| `BufferCache.Cache.InstallTrans` | guest/xv6/kernel/log.c:68-83 | After a commit every logged block goes home; no bget panics, and every pin is dropped. |
| `BufferCache.Cache.InstallRecovered` | guest/xv6/kernel/log.c:68-83 | In recovery, with nothing pinned, every block of the header goes home, and no bget panics exactly if there are two buffers. |
| `BufferCache.Cache.Commit` | guest/xv6/kernel/log.c:193-203 | With only the pinned blocks referred to, no bget of a commit panics if and only if there are fewer of them than buffers; then no buffer is referred to any more, the blocks are at home on disk as they were last stored, the header is empty, and beside the log nothing else changed. |
| `BufferCache.AllPinnedIff` | guest/xv6/kernel/param.h:9-11 | Some run of the log comes to pin all NBUF buffers, and some run to commit so, if and only if the log has more than LOGSIZE blocks and there are NBUF blocks outside it. |
| `BufferCache.BreadSafe` | guest/xv6/kernel/bio.c:58-89 | With only pins, bget finds a buffer for a block that is not pinned exactly if there are fewer pins than buffers. |
| `BufferCache.BuffersOf` | guest/xv6/kernel/bio.c:58-89 | The buffers referred to are as many as the pinned blocks. |
| `FsBlocks.WordPut` | guest/xv6/kernel/fs.c:394-400 | Words of an indirect block are read back as stored, and storing one changes no other. |
| `FsBlocks.NamedOnce` | guest/xv6/kernel/fs.c:377-405 | No block is named by two slots, over all inodes, direct and indirect. |
| `FsBlocks.MarkedIffNamed` | guest/xv6/kernel/fs.c:64-103 | A data block is marked in the free map exactly if some inode names it. |
| `FsBlocks.NamedSound` | guest/xv6/kernel/fs.c:382-394 | Naming a newly allocated direct or indirect block keeps ownership and every file. |
| `FsBlocks.NamedViaSound` | guest/xv6/kernel/fs.c:395-401 | Naming a block through the indirect block keeps ownership and every file. |
| `FsBlocks.StoredSound` | guest/xv6/kernel/fs.c:499-507 | Bytes put into the block of an offset change that inode's bytes there and no other file. |
| `FsBlocks.OverwriteAgain` | guest/xv6/kernel/fs.c:498-508 | Overwriting in two chunks is overwriting once. |
| `FsBlocks.ReleasedBase` | guest/xv6/kernel/fs.c:89-103 | Giving back a named block keeps ownership, and the block was marked. |
| `FsCode.FileSystem.Balloc` | guest/xv6/kernel/fs.c:64-86 | Allocates the lowest free block, zeroed and marked; fails exactly if none is free. |
| `FsCode.FileSystem.Bfree` | guest/xv6/kernel/fs.c:89-103 | Clears the mark; panics exactly on a free block. |
| `FsCode.FileSystem.Bmap` | guest/xv6/kernel/fs.c:377-405 | Returns the block of a file block, allocating it and the indirect block if missing, changes no file's bytes, and changes nothing if the block is there. |
| `FsCode.FileSystem.Itrunc` | guest/xv6/kernel/fs.c:409-437 | Frees exactly the blocks of its own inode, never a free block, and leaves every other file alone; the inode on disk follows. |
| `FsCode.FreedExactly` | guest/xv6/kernel/fs.c:409-437 | If an inode names nothing any more and the others are as they were, the free map lost exactly its blocks. |
| `FsCode.FileSystem.Readi` | guest/xv6/kernel/fs.c:455-481 | Returns the matching slice of the file, or what fits the destination and -1; changes nothing, so it never allocates. |
| `FsCode.FileSystem.Writei` | guest/xv6/kernel/fs.c:486-517 | Fails with -1 exactly on the two range checks; otherwise the file is the old one with the readable source bytes over it and its size grown by what is reported; other files are unchanged and the inode is written back. |
| `FsCode.ReadBack` | guest/xv6/kernel/fs.c:455-517 | Bytes written are read back, and what lies before and after is as it was. |
| `FsCode.StoresUnreported` | guest/xv6/kernel/fs.c:501-505 | A concrete writei that reports no byte but changes one, because the copy from the user stopped half way. |
| `FsCode.OnlyReportedIff` | guest/xv6/kernel/fs.c:498-511 | For given size, offset, length and readable part, writei changes only the bytes it reports, whatever they are, exactly if the readable part ends at a block of the file or nothing past the report was in the file. |
| `FsCode.FileSystem.FileChunk` | guest/xv6/kernel/file.c:155-163 | One chunk of filewrite logs at most MAXOPBLOCKS blocks, however many blocks the free map has. |
| `FsCode.FileSystem.FileWrite` | guest/xv6/kernel/file.c:153-175 | Returns n exactly if the offset is in the file, the file stays within its limit and the whole source can be read; each of its operations logs at most MAXOPBLOCKS blocks; the stored bytes are a prefix of the source. |
| `FsCode.ChunkBound` | guest/xv6/kernel/file.c:155-157 | A chunk of filewrite reaches into at most four blocks, of which at most three begin in it. |
| `Virtqueue.RunInv` | guest/xv6/kernel/virtio_disk.c:154-337 | The invariant of driver, device and interrupt holds in every state of every interleaving. |
| `Virtqueue.DescriptorsConserved` | guest/xv6/kernel/virtio_disk.c:154-210 | Free descriptors plus three for each chain in use make NUM, and chains do not overlap. |
| `Virtqueue.IndexWindow` | guest/xv6/kernel/virtio_disk.c:274-282 | avail.idx is never more than two ahead of the driver's used_idx, modulo 2^16. |
| `Virtqueue.SlotsAreRead` | guest/xv6/kernel/virtio_disk.c:272-282 | The slots that are about to be written hold no request or answer still to be read. |
| `Virtqueue.PollingIsExact` | src/virtio_dev.c:127-150 | The index comparisons of device and driver are unequal exactly if something is to be handled, in spite of wrap-around. |
| `Virtqueue.ServedInOrder` | src/virtio_dev.c:77-122 | The ramdisk is the image with the served requests applied to it once each, in the order they were published. |
| `Virtqueue.StepProgress` | src/virtio_dev.c:127-150 | No step serves a request twice or skips one. |
| `Virtqueue.CompletedTransfer` | guest/xv6/kernel/virtio_disk.c:305-337 | When a buffer is handed back its request, for its block and direction, has been served, and it holds what the ramdisk had at that point, or the ramdisk took its bytes. |
| `Virtqueue.NeverMalformed` | src/virtio_dev.c:77-122 | Whenever the device has fetched a head, the walk from it ends after the three descriptors of the next request: its header, its buffer and its status byte; the interrupt only takes the completion of the next request; neither gets stuck. |
| `Virtqueue.SectorExactIff` | guest/xv6/kernel/virtio_disk.c:218 | The 32-bit sector number stands for its block exactly for block numbers below 2^31. |
| `Virtqueue.SectorWraps` | guest/xv6/kernel/virtio_disk.c:218 | A block number above 2^31 whose request is for another block. |
| `VirtioCode.Disk.AllocDesc` | guest/xv6/kernel/virtio_disk.c:154-164 | Takes the lowest free descriptor, or none. |
| `VirtioCode.Disk.FreeOne` | guest/xv6/kernel/virtio_disk.c:167-180 | Marks the descriptor free and clears it; panics exactly if it is free already or out of range. |
| `VirtioCode.Disk.Alloc3Desc` | guest/xv6/kernel/virtio_disk.c:199-210 | Takes the three lowest free descriptors, or gives back what it took. |
| `VirtioCode.Disk.FormatRequest` | guest/xv6/kernel/virtio_disk.c:238-270 | Lays out the three descriptors of a request. |
| `VirtioCode.Disk.FreeChain` | guest/xv6/kernel/virtio_disk.c:183-196 | Walks the chain and frees its three descriptors without a panic. |
| `VirtioCode.CollectChain` | src/virtio_dev.c:87-97 | Copies the descriptors of a chain that ends, in order. |
| `VirtioCode.ProcessDesc` | src/virtio_dev.c:77-122 | Walk, transfer and status byte are the step of the machine; a chain of another length is left alone. |
| `VirtioCode.AlwaysServable` | src/virtio_dev.c:77-122 | In every run the chain of a fetched head ends, has three descriptors and can be processed. |
| `VirtioCode.RamdiskRw` | src/ramdisk.c:18-41 | Copies one block to or from the ramdisk, and fails exactly past its end. |
| `SleepWakeup.RunInv` | guest/xv6/kernel/proc.c:387-530 | The invariant of scheduler, sleep and wakeup holds in every state of every interleaving. |
| `SleepWakeup.NoLostWakeup` | guest/xv6/kernel/proc.c:485-530 | Whenever the condition lock is free and the condition holds, no process sleeps on the channel or is about to. |
| `SleepWakeup.CurrentOnOneCpu` | guest/xv6/kernel/proc.c:387-426 | No process is the current process of two CPUs. |
| `SleepWakeup.RunningMeansOnCpu` | guest/xv6/kernel/proc.c:387-447 | A running process is on a CPU, and no two schedulers work on one process. |
| `SleepWakeup.LkExcludes` | guest/xv6/kernel/proc.c:485-513 | The condition lock that sleep hands over is never held twice. |
| `ProcessTree.RunInv` | guest/xv6/kernel/proc.c:222-378 | The invariant of fork, exit and wait holds in every state of every interleaving. |
| `ProcessTree.ParentsAreAlive` | guest/xv6/kernel/proc.c:222-330 | Every started process but init, zombies included, has a parent that is neither unused nor a zombie, also while wait_lock is held. |
| `ProcessTree.ReapedOnceOffStack` | guest/xv6/kernel/proc.c:333-378 | A zombie is freed at most once and only after it has switched off its kernel stack. |
| `ProcessTree.NoLostExit` | guest/xv6/kernel/proc.c:289-378 | Whenever wait_lock is free, no parent sleeps in wait while it has a zombie child. |
| `KrHeap.Conservation` | guest/xv6/user/umalloc.c:24-90 | The blocks on the free list and the blocks in use cover the units obtained from sbrk, each unit once. |
| `KrHeap.NoOverlap` | guest/xv6/user/umalloc.c:24-90 | A block in use overlaps no other block in use and no free block. |
| `KrHeap.FreedValid` | guest/xv6/user/umalloc.c:24-43 | Inserting and merging keeps a circular list in address order of disjoint blocks with no two adjacent. |
| `KrHeap.FreedUnits` | guest/xv6/user/umalloc.c:24-43 | Freeing moves exactly the units of the block to the free ones. |
| `KrHeap.TakenValid` | guest/xv6/user/umalloc.c:75-77 | Taking a block off the list keeps the list, and its units are no longer free. |
| `KrHeap.SplitValid` | guest/xv6/user/umalloc.c:78-82 | Splitting off the tail of a block keeps the list. |
| `KrHeap.GrownValid` | guest/xv6/user/umalloc.c:46-60 | Memory from sbrk, marked as in use, keeps the list. |
| `KrMalloc.Allocator.FindPlace` | guest/xv6/user/umalloc.c:29-31 | The search loop of free ends at the block after which the freed one belongs. |
| `KrMalloc.Allocator.Free` | guest/xv6/user/umalloc.c:24-43 | The pointer updates of free are the insertion and the merges; exactly the block's units become free. |
| `KrMalloc.Allocator.Morecore` | guest/xv6/user/umalloc.c:46-60 | The units from sbrk are free afterwards and the request fits. |
| `KrMalloc.Allocator.FindFit` | guest/xv6/user/umalloc.c:74-87 | One turn around the list finds a block that is large enough, exactly if there is one. |
| `KrMalloc.Allocator.Malloc` | guest/xv6/user/umalloc.c:63-90 | If a free block fits, a new block of the asked size comes from free units; otherwise from free units and those sbrk gave, or nothing; both search loops end. |
| `KrMalloc.NewBlockIsDisjoint` | guest/xv6/user/umalloc.c:63-90 | A new block shares no unit with a block already in use. |
| `KrMalloc.FreeUndoesMalloc` | guest/xv6/user/umalloc.c:24-90 | Freeing a block just handed out restores the blocks in use and the free units. |
| `KrMalloc.UnitsFor` | guest/xv6/user/umalloc.c:69 | A header and enough units for the bytes, with less than one unit to spare. |
| `KrMalloc.SbrkExactIff` | guest/xv6/user/umalloc.c:51-53 | The request reaches sbrk's int argument unchanged exactly for up to 2^31 - 32 bytes. |
| `KrMalloc.SbrkGarbled` | guest/xv6/user/umalloc.c:51-53 | Two requests that reach sbrk as a negative number and as one unit. |
| `PageTree.LinkedGood` | guest/xv6/kernel/vm.c:126-137 | Hooking a new empty table into a table keeps the tables in memory and the map they stand for in step. |
| `PageTree.MappedGood` | guest/xv6/kernel/vm.c:218-231 | Setting the entry of an unmapped page adds exactly that page. |
| `PageTree.UnmappedGood` | guest/xv6/kernel/vm.c:250-263 | Clearing the entry of a page removes exactly that page. |
| `PageTree.DroppedGood` | guest/xv6/kernel/vm.c:376-377 | A table without children can go, but for the entry that points to it. |
| `PageTree.FreeAgain` | guest/xv6/kernel/proc.c:230-239 | If a tree has no frame before and none after, the free frames are the same. |
| `GuestMemory.PxMeans` | guest/xv6/kernel/aarch64.h:261-263 | The shifts and masks select the index of the page number at each level. |
| `GuestMemory.Memory.Kalloc` | guest/xv6/kernel/kalloc.c:74-88 | Pops the head of the free list, fails exactly if it is empty. |
| `GuestMemory.Memory.Kfree` | guest/xv6/kernel/kalloc.c:52-69 | Pushes the frame on the free list and overwrites it. |
| `GuestMemory.Memory.FreeRange` | guest/xv6/kernel/kalloc.c:39-46 | Every frame of the range goes on the free list once. |
| `GuestMemory.Memory.Walk` | guest/xv6/kernel/vm.c:116-139 | Finds the table of an address; with alloc it makes exactly the missing tables on the path, each from a free frame, and fails exactly if there are fewer frames than missing tables; without it changes nothing. |
| `GuestMemory.Memory.Mappages` | guest/xv6/kernel/vm.c:195-236 | Maps pages in order until done, out of memory, or at a mapped page, using no frame but those of the range and free ones for tables. |
| `GuestMemory.Memory.Uvmunmap` | guest/xv6/kernel/vm.c:242-264 | Succeeds exactly if the address is aligned and every page is mapped; then exactly those pages go and exactly their frames come back. |
| `GuestMemory.Memory.Uvmalloc` | guest/xv6/kernel/vm.c:297-321 | Succeeds exactly if there is a free frame for each new page and each missing table of the range; then adds zeroed user pages in frames that were free, otherwise leaves every page as it was. |
| `GuestMemory.Memory.Uvmdealloc` | guest/xv6/kernel/vm.c:346-358 | Removes exactly the pages between the two sizes and frees their frames; panics exactly if one of them is not mapped. |
| `GuestMemory.Memory.Uvmcopy` | guest/xv6/kernel/vm.c:396-424 | Succeeds exactly if every page of the parent is mapped and there is a free frame for each page and each missing table; then adds a copy of every page, otherwise leaves every page as it was; panics only if a page of the parent is not mapped. |
| `GuestMemory.Memory.Uvmcreate` | guest/xv6/kernel/vm.c:268-277 | An empty table in a frame that was free. |
| `GuestMemory.Memory.Freewalk` | guest/xv6/kernel/vm.c:362-379 | Frees exactly the tables under a table, recursively, once each. |
| `GuestMemory.Memory.Uvmfree` | guest/xv6/kernel/vm.c:382-388 | Panics exactly if a page below the size is not mapped; otherwise no frame serves the address space any more, and no other tree changed. |
| `GuestMemory.Memory.ForkPages` | guest/xv6/kernel/proc.c:230-239 | Succeeds exactly if there is a free frame for the root, for each page and for every table of that many pages at each level; then the child has a copy of each page and no more; on failure the free frames are exactly those from before the call and every mapping is as it was. |
| `GuestMemory.CopyIsCopy` | guest/xv6/kernel/vm.c:403-416 | A page of the child has the bytes and flags of the parent's page, in a frame that was free. |
| `GuestPages.AddedOk` | guest/xv6/kernel/vm.c:305-318 | kalloc, fill and mappages add one page, or after kfree change no page. |
| `GuestPages.GrewUndone` | guest/xv6/kernel/vm.c:421-423 | Unmapping the pages added leaves every page as it was. |
| `GuestPages.RemovedMore` | guest/xv6/kernel/vm.c:250-263 | Unmapping one page more extends the range removed by one. |
| `TablePrune.CutChild` | guest/xv6/kernel/vm.c:368-375 | Freeing the subtree of one child more extends the tables gone by exactly those. |
| `TablePrune.NothingLeft` | guest/xv6/kernel/vm.c:382-388 | Once the tables under the root are gone and no page is left, no frame serves the tree. |
| `TableCount.NewTreeLacks` | guest/xv6/kernel/vm.c:116-139 | In a tree with only a root, a range of pages lacks one table for each value its page numbers take at each level. |
| `TableCount.RangeMore` | guest/xv6/kernel/vm.c:212-233 | Making the tables on the path of the next page makes the tables of the range up to and with it. |
| `Stage2.PidxMeans` | include/mmu.h:39 | The shifts and masks select the index of the page number at each level. |
| `Stage2.Tables.Pagewalk` | src/mmu.c:7-25 | Finds the table of an address; if asked to, makes exactly the missing tables on its path, each from a free page, and runs out exactly if there are fewer pages than missing tables; otherwise changes nothing. |
| `Stage2.Tables.Pagemap` | src/mmu.c:27-43 | Succeeds exactly if all is aligned, no page of the range is mapped and there is a page for each missing table; then maps exactly its range, makes exactly the tables of the range, and takes one page for each. |
| `Stage2.Tables.Ipa2pa` | src/mmu.c:60-72 | The frame and offset of a mapped address, the offset alone if only the entry is missing, 0 if the table is. |
| `Stage2.Tables.CreateVm` | src/vm.c:82-146 | The three loops succeed exactly if there is a page for the root, for every page of guest RAM and for every table of the range at each level; then every page of RAM is mapped to a page that was free, and no other page changed. |
| `Stage2.RealSizes` | src/init.c:19-63 | A guest of 128 MB at 1 GB takes 32835 of the 65536 pages. |
| `Stage2.RamTranslation` | src/vm.c:99-146 | On guest RAM the translation is total and injective, keeps the offset, and never reaches a page-table page. |
| `Stage2.RangeTranslated` | src/mmu.c:34-42 | pagemap gives the addresses of its range the frames of its range. |
| `Stage2.TranslationMoves` | src/mmu.c:27-72 | A run of pagemap that changes what an unmapped address translates to, from 0 to its offset. |
| `Stage2.OthersKeptIff` | src/mmu.c:34-72 | An address outside the range keeps its translation exactly if its table exists already, or no table of the range is its table, or it is a page boundary. |
| `PageAllocator.PageAllocator.constructor` | src/page_alloc.c:24-40 | Over a bitmap with any contents, the pages free at the start are those whose bits the memset clears and those whose bits were clear; the hint is 0. |
| `PageAllocator.InitLeavesUsed` | src/page_alloc.c:38 | A bitmap over which page 8 of 64 is not free at the start. |
| `PageAllocator.InitFreesAllIff` | src/page_alloc.c:38 | Every page is free at the start exactly if the bits behind the cleared ones were clear before. |
| `PageAllocator.PageAllocator.FindFreeRange` | src/page_alloc.c:49-85 | The next-fit search finds the first run from the hint around the pool, exactly if there is one, also with a hint past the end of the pool. |
| `PageAllocator.PageAllocator.AllocPages` | src/page_alloc.c:87-113 | Fails exactly if no run is found; an answer that fits the pool was wholly free and is taken; one that does not still marks its bits and leaves a hint past the end, with which the allocator goes on working, and cannot come if one page is asked for or the hint is at or past an end. |
| `PageAllocator.PageAllocator.FreePages` | src/page_alloc.c:115-142 | Succeeds exactly on its range check, whose 64-bit sum may wrap, and frees what lies between start and end. |
| `PageAllocator.FreeWraps` | src/page_alloc.c:124-134 | A range outside the pool that is accepted and of which nothing is freed. |
| `PageAllocator.FreeExactIff` | src/page_alloc.c:124-134 | An accepted range lies in the pool and is what is freed, exactly if its end is below 2^64. |
| `PageAllocator.PageAllocator.AllocPage` | src/page_alloc.c:144-147 | Fails only when no page is free, and otherwise hands out a free one. |
| `PageAllocator.PageAllocator.FreePage` | src/page_alloc.c:149-152 | Frees the page exactly if it is in the pool. |
| `PageAllocator.RunIsRange` | src/page_alloc.c:49-85 | A run of visited pages that fits the pool is a range of free pages. |
| `PageAllocator.WrapsPastEnd` | src/page_alloc.c:52-80 | A concrete search for two pages whose answer runs past the end of the pool. |
| `PageAllocator.FitsIff` | src/page_alloc.c:49-85 | For all sets of free pages the answer of a search fits the pool, if and only if one page is asked for or the hint is at an end of the pool. |
| `Grep.Match` | guest/xv6/user/grep.c:70-80 | True exactly if the pattern matches at some start, by a declarative meaning of ^, ., c* and a final $. |
| `Grep.MatchHere` | guest/xv6/user/grep.c:82-93 | True exactly if the items cut the text from its start. |
| `Grep.MatchStar` | guest/xv6/user/grep.c:96-104 | True exactly if some number of the character, then the rest, match. |
| `Grep.FirstItem` | guest/xv6/user/grep.c:82-104 | A pattern matches exactly if its first item covers some stretch and the rest matches after it. |
| `ShellParser.GetToken` | guest/xv6/user/sh.c:265-307 | One token between blanks: a symbol, >>, a maximal word, or the end. |
| `ShellParser.Peek` | guest/xv6/user/sh.c:310-320 | Skips blanks and tells whether the next character is one of those asked for. |
| `ShellParser.ParseRedirs` | guest/xv6/user/sh.c:374-397 | Reads redirections in order; it fails only if the line cannot be a command. |
| `ShellParser.ParseExec` | guest/xv6/user/sh.c:415-446 | A simple command or a group, read as the grammar says; it ends for every input and fails only if the line cannot be a command. |
| `ShellParser.ParseBlock` | guest/xv6/user/sh.c:399-412 | A line in parentheses with its redirections; it fails only if the line cannot be a command. |
| `ShellParser.ParsePipe` | guest/xv6/user/sh.c:361-371 | Commands joined by a pipe symbol, nested to the right, in the order of the line; it fails only if the line cannot be a command. |
| `ShellParser.ParseLine` | guest/xv6/user/sh.c:344-358 | Pipelines with & and ;, in the order of the line; it fails only if the line cannot be a command. |
| `ShellGrammar.ReadingWords` | guest/xv6/user/sh.c:344-446 | The words of a command are exactly the words of the line it was read from, each once. |
| `ShellUnique.OneCommand` | guest/xv6/user/sh.c:344-446 | The grammar is unambiguous: two readings of a line give the same command. |
| `ShellUnique.ReadingAccepted` | guest/xv6/user/sh.c:344-446 | Every line that the grammar can read is accepted by a left-to-right scan that counts open parentheses and arguments. |
| `ShellParser.MoreArgs` | guest/xv6/user/sh.c:430-442 | The argument loop reads arguments and redirections in any order, at most nine arguments; it fails only on a token that cannot follow or on a tenth argument. |
| `ShellParser.ParseBacks` | guest/xv6/user/sh.c:349-352 | One background node for each ampersand. |
| `ShellParser.Nulterminate` | guest/xv6/user/sh.c:449-493 | Stores a NUL behind every word of the command and nowhere else. |
| `ShellParser.WordReadsBack` | guest/xv6/user/sh.c:449-493 | No NUL falls inside a word, so every word reads back as its text. |
| `ShellParser.ParseCmd` | guest/xv6/user/sh.c:327-342 | Succeeds exactly on the lines the scan accepts, so on every line with a reading, and returns the only command of the line; its words are the line's words, and each reads back from the buffer. A line that is refused stays as it was. |
| `TicketLock.RunInv` | include/spinlock.h:13-59 | The invariant of the lock holds in every state of every interleaving. |
| `TicketLock.MutualExclusion` | include/spinlock.h:23-59 | At most one CPU holds the lock. |
| `TicketLock.FirstComeFirstServed` | include/spinlock.h:23-46 | CPUs enter in the order in which they took tickets. |
| `TicketLock.OutstandingTickets` | include/spinlock.h:23-59 | The outstanding tickets are the distinct values from next up to ticket, modulo 2^32. |
| `TicketLock.OnlyOldestMatches` | include/spinlock.h:23-46 | Only the oldest outstanding ticket equals next, in spite of wrap-around. |
| `TicketLock.SomeoneCanEnter` | include/spinlock.h:23-59 | If CPUs wait and none holds the lock, one of them can enter. |
| `MulDiv.DoMuldiv64` | src/timer.c:16-41 | Equals the floor of a * b / c modulo 2^64, without overflow on the way. |
| `MulDiv.PartialProducts` | src/timer.c:16-41 | The 96-bit product by halves, without overflow. |
| `MulDiv.DivideHalves` | src/timer.c:16-41 | Long division of the halves, without overflow. |
| `MulDiv.Muldiv64` | src/timer.c:43-58 | Scales by b / c, and gives 0 for c = 0 as the code does. |
| `MulDiv.ScaleExactIff` | src/timer.c:43-58 | The result is the quotient exactly if the quotient fits 64 bits. |
| `MulDiv.Timer.NstimeToCount` | src/timer.c:60-66 | Nanoseconds to counts at the low 32 bits of the frequency. |
| `MulDiv.Timer.CountToTimeNs` | src/timer.c:68-71 | Counts to nanoseconds at the low 32 bits of the frequency. |
| `MulDiv.RoundTrip` | src/timer.c:60-71 | To counts and back never exceeds the time and loses less than 10^9 / frequency + 1, exactly if the count fits 64 bits. |
| `MulDiv.RoundTripCount` | src/timer.c:60-71 | To time and back never exceeds the count and loses less than frequency / 10^9 + 1, exactly if the time fits 64 bits. |
| `MulDiv.RoundTripsWrap` | src/timer.c:60-71 | A count at 62.5 MHz and a time at 2 GHz that do not come back. |

## Left out

- Assembly, system registers, TLB maintenance and barriers: steps are taken to be sequentially consistent, and the exclusive load and store of the ticket lock an atomic pair.
- The contents of page-table entries as bit patterns: an entry is empty, a table or a page with its attributes.
- Guest addresses of 2^39 and above: `walk` ignores the bits above 38, so the map view is stated below that bound.
- Copying between user and kernel memory (`copyin`, `copyout`, `copyinstr`): a copy is a parameter that says how many bytes can be moved.
- The bits of the free map within its bytes, and the block cache below the file system: the file system works on a free map of booleans and on blocks directly.
- Directories and path names (`dirlookup`, `dirlink`, `namex`) and the inode table (`iget`, `ilock`, `iput`).
- Interleaving of file system calls: each call runs alone, as the inode and buffer locks make it.
- Interleaving of memory calls: each call on page tables, on the frames, on the page allocator and on the heap runs alone.
- Interrupt handlers in the process machines: there only process threads call wakeup, while in the source interrupt handlers do so too.
- `exec`, system call arguments, pipes, console, UART, GIC emulation and trap dispatch: input and output or glue without an invariant of their own.
- `kill` in the process machines, and which condition a sleeper waits for beyond one lock and one channel.
- The links of the free page list inside the free pages: the list is a sequence of frames.
- Stage2.Tables.CreateVm: does not model the bytes of the guest image, nor the device pages mapped after the loops, nor what the code does after the allocator has failed, because it does not notice.
- Stage2.Tables.Pagewalk: takes free pages to be zeroed, because the source does not clear a new table.
- Stage2.Tables.Pagemap: asks for target frames in the hands of the caller, because the source maps any address, also one outside the pool or in use elsewhere.
- GuestMemory.Memory.Uvmfree: asks that no page at or above the size is mapped, because the source then drops its table and leaves the frame in use.
- PageAllocator.PageAllocator.constructor: does not model the answer -1 to a missing bitmap or to no pages, because there is then no allocator.
- PageAllocator.PageAllocator.AllocPages: stops where the bitmap itself is too short for an answer past the end of the pool, because the source then writes outside it.
- FsCode.FileSystem.Writei: keeps the bytes of a chunk that could be read in part only; in the source they are in a buffer that was not given to the log and can revert when the buffer is reused.
- GuestMemory.Memory.Mappages: does not model the check of the physical address against PHYSTOP, because frames of the pool lie below it.
- VirtioCode.CollectChain: asks for a chain that ends, because the walk in the device has no bound.
- ShellParser.ParseCmd: the line and its length are given, in place of strlen.
