# Verification of xv6's storage stack, memory management and process protocols

Dafny models of the hardest parts of the xv6 kernel under `xv6-fs/` and of two dining-philosopher
programs, with proofs. `dafny verify dfyconfig.toml` checks everything. Source paths below are
relative to the repository's root.

| modules | what they model |
|---|---|
| `Param`, `Steps`, `Options`, `Sets`, `Blocks` | the constants of `param.h`, sequences of events, counting, disk blocks as bytes and as little-endian words |
| `LogSpec`, `LogMachine`, `LogRuns`, `LogCommits`, `LogBudget`, `LogBuffers`, `Log` | `log.c` over `bio.c` over the disk: recovery as a function of the disk; a state machine in which the steps of all processes, single block writes, evictions and crashes interleave, what holds in all its runs, and what some run does from any point; the functions of `log.c` as methods that change the disk, the cache and the in-memory header in place |
| `FsSpec`, `FsInv`, `FsFile`, `FsSteps`, `FsRoom`, `FsTrunc`, `Fs`, `File` | `fs.c` and `filewrite`: bitmap, inodes, block maps, file contents, what a write logs and when it runs out of blocks |
| `FsCrowded`, `FsDisks` | the disk that mkfs makes, and disks on which one write or one truncation logs as much as any can |
| `LogFs` | `fs.c` on top of `log.c`: the file system that a crash leaves |
| `Kalloc`, `VmSpec`, `VmSteps`, `VmKernel`, `VmCount`, `Vm`, `VmWorld` | `kalloc.c` and `vm.c`: the list of free frames inside the frames, two-level page tables, how many frames they take, whole address spaces, any number of them on one free list |
| `Umalloc` | `umalloc.c`: the K&R allocator |
| `Bio` | `bio.c` over `memide.c`: buffers, their ring, their locks |
| `Sleeplock`, `Proc` | sleep locks over sleep and wakeup, step by step; the process table |
| `Pipe` | `pipe.c`: the ring buffer with wrapping counters |
| `Grep` | the pattern matcher of `grep.c` |
| `Philo`, `PhiloRoom`, `PhiloParity` | `philo_sem4.c` and `philo_sem2.c` for any number of philosophers |

How to read the proofs. Code that changes things step by step is a class or a method whose contract
is stated over values: a class's fields are passed to a predicate that says what one call does to
them (`FsSteps.Wrote`, `VmSteps.Grown`, ...), and lemmas about those predicates carry the argument.
Ghost state only names what is already there: `Fs.owner` gives for each used block the one slot that
holds it (`FsInv.ConservedIsOwned` shows that such a map exists exactly when blocks are conserved),
`Umalloc.owner` gives for each unit the block it lies in, `tabs` and `users` in `Vm` give for each
frame of an address space its one use. Concurrency is a state machine (`LogMachine`, `Sleeplock`,
`PhiloRoom`, `PhiloParity`) or a class whose methods are the stretches of code under one lock, so
that any interleaving is a sequence of calls (`Bio`, `Proc`, `Pipe`). `File.Filewrite` proves of each of
its transactions that it logs at most MAXOPBLOCKS different blocks, every block it changes among them
(`FsRoom.Adds`); this is the rule `LogBudget.Rule(MAXOPBLOCKS, true, None)`, since balloc and iupdate log a
block again that they have logged before.

Where code and documentation or expectation differ, the model follows the code:

- `log_write` tests `log.lh.n >= log.size - 1` (`xv6-fs/log.c:218`) before it looks for the block in
  the list (`xv6-fs/log.c:221-228`), and mkfs makes the log one slot smaller than LOGSIZE
  (`xv6-fs/mkfs.c:25`). So operations that keep to MAXOPBLOCKS different blocks can meet the panic
  "too big a transaction". `LogBudget.PanicCondition` is the exact condition, for any number k of
  different blocks an operation and any log size: with mkfs's log no run meets the panic if k is 9,
  and some run does if k is 10. With k of 10 a larger log helps only if no operation calls log_write
  again once its 10 blocks are logged: if operations do, some run panics in a log of any size, at a
  call that would take no slot.
- `writei` calls iupdate only when the file has grown (`xv6-fs/fs.c:514-517`), and `readi` never does,
  yet bmap fills holes for both. `FsRoom.InodeLeft` is the exact condition under which the inode on
  disk is left without a block: the access stays within the file and needs an empty direct slot or an
  empty slot of the indirect block. `FsDisks.RootHole` is a case, a root directory whose size mkfs has
  rounded up past its last block (`xv6-fs/mkfs.c:158-163`).
- The comment in `filewrite` counts an i-node, an indirect block, allocation blocks and two blocks of
  slop (`xv6-fs/file.c:139-144`). For files without holes, and so for every regular file of this
  system (writei refuses an offset behind the end, fileseek writes the zeros in between), the bound
  holds and is met (`File.ChunkFits`, `File.ChunkLargest`). It needs that hypothesis: the bound fails
  exactly for a chunk that touches four blocks and does not find the first (`File.ChunkExceeds`,
  `File.HoleTooMuch`).
- bget panics when all buffers are in use (`xv6-fs/bio.c:92`). A full log of mkfs's size pins 29 of the
  30 buffers, so a reader that holds another one during its commit is enough:
  `LogBuffers.BufferCondition` is the exact condition on the number of buffers.
- `allocproc` does not clear `killed`, and `kill` does not look at the state of the entry it finds, so a
  kill that names pid 0, or the pid of a fork that failed or is not finished, marks a process that does
  not exist yet; the contract of `Proc.Ptable.Finish` says exactly which children start killed.
- `walkpgdir` called with `alloc` leaves a new page table behind when `allocuvm` fails, so `allocuvm`
  restores the user mapping and returns its user frames, but not page tables (`VmSteps.SameUser`).
- `kfree` does not notice a frame that is free already; the free list is then circular
  (`Kalloc.FreedTwice`).

## Model

| member | source | states |
|---|---|---|
| `LogSpec.HeaderRoundTrip` | xv6-fs/log.c:85-113 | what write_head stores in the header block, read_head reads back, for every list that fits |
| `LogSpec.InstallAt` | xv6-fs/log.c:69-82 | after any number of turns of install_trans a block listed so far has its copy from the log area, and any other block is as before |
| `LogSpec.RecoverGives` | xv6-fs/log.c:115-122 | recovery brings the home blocks to v if and only if the disk promises v: logged blocks by their log copies, the others in place; the header is empty afterwards |
| `LogSpec.RecoverPrefixOk` | xv6-fs/log.c:68-122 | a recovery cut off after any number of its block writes leaves a disk that promises the same contents |
| `LogSpec.RecoverLogArea` | xv6-fs/log.c:68-122 | outside the home blocks recovery changes only the count in the header |
| `LogSpec.RecoveryIdempotent` | xv6-fs/log.c:68-122 | however many recoveries crash, each after any number of writes, the next complete one leaves exactly the disk of a single uninterrupted one |
| `LogRuns.CrashAtomicity` | xv6-fs/log.c:68-202 | at every point of every run, recovery from the disk as it is gives the contents after all transactions committed so far, in order; the header fits the log and lists blocks outside it; no later step loses a transaction |
| `LogRuns.CommittedByWriteHead` | xv6-fs/log.c:98-113 | the write of the header in commit, and no other step, changes what a crash recovers to: from the durable contents to what system calls see |
| `LogRuns.AllOrNothing` | xv6-fs/log.c:124-233 | all the log_writes an operation ever made are in one committed transaction, complete and in order, or in none; an open operation is in none |
| `LogRuns.GroupCommit` | xv6-fs/log.c:124-174 | committing implies that no operation is outstanding or can begin, and end_op cannot meet its panic |
| `LogRuns.Reservation` | xv6-fs/log.c:124-141 | logged blocks plus the unspent budgets of all open operations fit LOGSIZE, logged numbers are distinct; log_write panics exactly when the list is as long as the on-disk log can be, which in a log larger than LOGSIZE is exactly with LOGSIZE blocks logged and no budget left |
| `LogRuns.Durability` | xv6-fs/log.c:145-202 | once a commit has finished, a crash recovers to exactly what system calls see, and every operation begun since the last crash has all its log_writes in one committed transaction or made none |
| `LogCommits.ModifyIsSeen` | xv6-fs/log.c:204-233 | from any reachable state, new contents for a block that an open operation holds, and log_write: what system calls see is what they saw, with that block changed |
| `LogCommits.Commits` | xv6-fs/log.c:124-233 | at any point of any run with nothing under way, any list of block contents within the budget of an operation and the log is the transaction of one operation in some run; after its commit recovery gives the home blocks as they were with these contents stored |
| `LogCommits.AllCommit` | xv6-fs/log.c:124-233 | any sequence of such lists is the sequence of transactions of some run from a new disk |
| `LogCommits.Reboots` | xv6-fs/log.c:53-122 | a crash at any point of any run can be followed by the whole of recovery, block write by block write: the disk is then the one that recovery is specified to give, and system calls see the committed transactions and nothing else |
| `LogCommits.AtRest` | xv6-fs/log.c:192-202 | with nothing under way every buffer can be evicted, and what system calls see is on the disk |
| `LogBudget.NeverPanics` | xv6-fs/log.c:124-221 | in a log large enough for the callers' rule no call that keeps to it meets "too big a transaction", in any run of calls that keep to it |
| `LogBudget.CanPanic` | xv6-fs/log.c:213-228 | in any other log a run of such calls comes to one that keeps to the rule and panics; if the rule allows repeated calls, to one for a block that is already in the list |
| `LogBudget.PanicCondition` | xv6-fs/log.c:213-228 | operations of at most k different blocks never meet "too big a transaction", in any run, if and only if log.size is larger than MAXOPBLOCKS + 2k, or by one more and k below MAXOPBLOCKS if they repeat log_writes for logged blocks: with mkfs's log exactly for k below 10, and for k of 10 with repeated calls in no log |
| `LogBudget.ReachableByRule` | xv6-fs/log.c:124-233 | what runs by a rule reach, runs reach, and all runs of the machine are by the rule of MAXOPBLOCKS different blocks and repeated calls |
| `LogBuffers.BufferCondition` | xv6-fs/bio.c:61-93 | with at most h buffers held by system calls at any one time, no bget of any run, of a system call, of commit or of recovery, finds all n buffers in use, if and only if n is larger than the blocks that the log can pin and h together |
| `LogBuffers.Enough` | xv6-fs/bio.c:81-92 | with more buffers than that no state of any such run has a bget without a buffer |
| `LogFs.AfterCrash` | xv6-fs/log.c:53-233 | when each transaction is the work of calls of fs.c, recovery from a crash at any point of any run leaves the file system of the last commit: its inodes, its bitmap and all its files; it is consistent exactly if that commit owed no inode |
| `LogFs.AlwaysConsistent` | xv6-fs/log.c:9-22 | a file system that starts without holes is consistent after every crash of every such run: marked blocks are metadata or in one slot of one inode on disk, and blocks in slots are marked |
| `LogFs.ConsistentUnlessOwed` | xv6-fs/fs.c:514-517 | an inode that a call has left unwritten makes the disk inconsistent, whatever inodes and owners one reads into it, and nothing else does |
| `LogFs.NoHolesKept` | xv6-fs/fs.c:415-519 | on files without holes no call leaves its inode unwritten, and no call makes a hole |
| `LogFs.ByLogWrites` | xv6-fs/log.c:204-233 | any change that a call logs can be made by one log_write for each block logged |
| `LogFs.CallCommits` | xv6-fs/log.c:124-233 | every call that changes at most MAXOPBLOCKS blocks is the transaction of some run, from any point at which nothing is under way |
| `LogRuns.CacheAgrees` | xv6-fs/bio.c:61-141 | whoever reads a block gets the logical contents, a clean unlocked buffer equals the disk, and a logged block stays cached, dirty and unevictable until written home |
| `LogRuns.CommitProceeds` | xv6-fs/log.c:177-202 | a commit or recovery under way can always go on: its next write waits for nothing but the buffer of the logged block, and all numbers it uses fit the log and the disk |
| `LogMachine.StepKeeps` | xv6-fs/log.c:53-233 | every step, a crash included, keeps the invariants of disk, cache, counters and transactions |
| `Log.Log.Boot` | xv6-fs/log.c:53-66 | from any disk that promises v, booting ends with v in the home blocks, an empty log, and every block write on the way recoverable to v |
| `Log.Log.RecoverFromLog` | xv6-fs/log.c:115-122 | as many writes as the header lists and one more; a crash after any of them recovers to the same contents |
| `Log.Log.BeginOp` | xv6-fs/log.c:125-141 | an operation is admitted exactly when no commit is under way and the log has MAXOPBLOCKS slots left for it and for every open one |
| `Log.Log.LogWrite` | xv6-fs/log.c:213-233 | the panics exactly when the log is full or no operation is outstanding; else the block joins the open transaction once, its new contents are what the view has, and what a crash recovers to does not change |
| `Log.Log.EndOp` | xv6-fs/log.c:145-174 | the last operation commits: the view becomes durable; otherwise nothing reaches the disk |
| `Log.Log.WriteLog` | xv6-fs/log.c:177-190 | the log area gets the view's contents of the logged blocks, while every disk on the way still recovers to the old contents |
| `Log.Log.CommitHead` | xv6-fs/log.c:101-113 | this one write switches what a crash recovers to from the old contents to the view |
| `Log.Log.InstallTrans` | xv6-fs/log.c:69-82 | every disk on the way recovers to the committed contents |
| `Log.Log.Commit` | xv6-fs/log.c:192-202 | old contents up to the header write, new ones from it on, for a crash after any of the block writes; the log is empty at the end |
| `FsSpec.BitOfWithBit` | xv6-fs/fs.c:64-70 | setting or clearing bit k of a byte changes bit k and no other |
| `FsSpec.DinodeOfPut` | xv6-fs/fs.c:220-238 | iupdate then reading the inode block gives the inode back and every other inode of the block unchanged |
| `FsInv.ConservedIsOwned` | xv6-fs/fs.c:55-95 | the bitmap's set bits are the metadata blocks and the blocks of the inodes, each in one slot, if and only if an owner map as kept by the methods exists |
| `FsDisks.NewDisk` | xv6-fs/mkfs.c:94-163 | what mkfs makes of any layout, with its root directory in the first data block, satisfies the invariant that every operation keeps; the directory has no hole, and exactly the blocks behind it are free |
| `FsDisks.RootHole` | xv6-fs/mkfs.c:158-163 | a root directory whose entries fill its block gets the size of two: any write into the second finds a block for it, and leaves the inode on disk without it |
| `FsInv.FreeIsUnowned` | xv6-fs/fs.c:56-78 | a block that is free in the bitmap is neither metadata (nor block 0) nor in any file |
| `FsInv.GrowDirect` | xv6-fs/fs.c:377-381 | a block allocated into a direct slot or as indirect block keeps conservation, the slot's new block is zeroed, all other slots and files are as before |
| `FsInv.GrowEntry` | xv6-fs/fs.c:384-396 | the same for an entry of the indirect block, although the entry is written into a block of the file itself |
| `Fs.Fs.Balloc` | xv6-fs/fs.c:56-78 | the first free block, marked and zeroed, two blocks logged; it fails exactly when every block is used |
| `Fs.Fs.Bfree` | xv6-fs/fs.c:81-95 | the panic exactly when the block is free, else its bit cleared and nothing else |
| `Fs.Fs.Bmap` | xv6-fs/fs.c:372-400 | the block for index bn, unchanged state if it is there, else one zeroed block more in that slot; every other file and slot untouched, conservation kept, a bound on what is logged, every changed block among it; "out of blocks" only with a slot still empty and no block free |
| `Fs.Fs.Iupdate` | xv6-fs/fs.c:220-238 | the inode block has the inode afterwards, no file or bitmap block is touched |
| `Fs.Fs.Writei` | xv6-fs/fs.c:489-519 | exactly the bytes off .. off+n-1 replaced, the file grown if need be, every other file unchanged, blocks conserved, every changed block logged and at most WriteCost blocks in all; the -1 cases exactly; the panic exactly when fewer blocks are free than slots are empty that it needs; the inode on disk exactly unless a write within the file fills a slot of the inode |
| `FsRoom.TooFew` | xv6-fs/fs.c:56-78 | when balloc finds no block for a slot that the write needs, fewer blocks were free before it than slots it needs were empty |
| `FsRoom.LoopedWithin` | xv6-fs/fs.c:505-517 | writei that ends within the file leaves the old inode on disk if and only if a direct slot that it needs, or the slot of the indirect block, was empty |
| `FsFile.WrittenIsSplice` | xv6-fs/fs.c:505-517 | when the loop of writei is through, the contents are the old ones with src spliced in at off |
| `Fs.Fs.Readi` | xv6-fs/fs.c:460-485 | the bytes of the file from off on, holes as zeros: n of them, or fewer that end at the end of the file; all contents unchanged; without holes nothing at all changes, with them the holes read are filled, which panics exactly when too few blocks are free; the -1 cases exactly |
| `Fs.Fs.Itrunc` | xv6-fs/fs.c:415-443 | exactly the inode's blocks are given back, the indirect block included, "freeing free block" cannot happen, every other file unchanged; logged are exactly the inode block and the bitmap blocks of the blocks freed |
| `FsDisks.TruncFits` | xv6-fs/fs.c:415-443 | every truncation stays within MAXOPBLOCKS if and only if the data blocks have their bits in fewer bitmap blocks than that; on mkfs's 20000 blocks there are at most five |
| `File.Filewrite` | xv6-fs/file.c:138-170 | a write of any length to a file without holes: all of src in place, or -1 after the whole chunks before one that writei refuses, the file position moved by what was written and by append mode, and not at all for a descriptor that is not writable or an empty src; every transaction reaches end_op with at most MAXOPBLOCKS different blocks logged; a panic only at a chunk for which too few blocks are free |
| `File.ChunkFits` | xv6-fs/file.c:138-146 | a chunk at any offset of a file without holes stays within MAXOPBLOCKS logged blocks |
| `File.ChunkExceeds` | xv6-fs/file.c:139-145 | for chunks of at most the size that filewrite takes, the bound on what is logged exceeds MAXOPBLOCKS exactly if four blocks are touched and the first is missing |
| `File.ChunkLargest` | xv6-fs/file.c:139-145 | the chunk size is the largest possible: on some disk a write of that many bytes to the end of a file goes through and logs exactly MAXOPBLOCKS different blocks, and for each longer chunk, up to NINDIRECT blocks, one logs more, whatever blocks balloc picks |
| `File.HoleTooMuch` | xv6-fs/file.c:139-145 | a chunk of that size written into a file with a hole can log exactly one block more than MAXOPBLOCKS |
| `FsCrowded.AppendLogs` | xv6-fs/fs.c:505-517 | a write past the direct blocks, on a disk of zeros whose free blocks lie under different bitmap blocks, logs exactly the blocks of WriteCost: data, indirect, bitmap and inode blocks, none twice |
| `Kalloc.Kmem.Kalloc` | xv6-fs/kalloc.c:82-95 | the head of the list leaves it, 0 exactly when the list is empty |
| `Kalloc.Kmem.Kfree` | xv6-fs/kalloc.c:59-77 | the frame is at the head of the list, which stays a list without repetition through the frames' own first words, exactly if it was not on the list; else no list starts at the head any more; the panic exactly off a page boundary or outside the managed frames |
| `Kalloc.FreedTwice` | xv6-fs/kalloc.c:74-75 | after a frame on the list is linked in again, no sequence of frames is a list from the head |
| `Kalloc.Kmem.Freerange` | xv6-fs/kalloc.c:46-53 | exactly the whole pages of the range are freed, the last one at the head |
| `VmSpec.WritePte` | xv6-fs/vm.c:35-54 | writing the entry for a page changes the flat map at that page only, because page tables are distinct frames |
| `VmSpec.AddTable` | xv6-fs/vm.c:43-52 | a new zeroed page table changes no mapping |
| `Vm.Walkpgdir` | xv6-fs/vm.c:35-54 | the entry's place; the flat map is unchanged and a new table comes off the free list |
| `Vm.Mappages` | xv6-fs/vm.c:60-80 | the flat map updated on a run of pages that were not mapped, all of them or up to an out-of-memory or a page already mapped; "remap" exactly in the last case |
| `VmKernel.RowsApart` | xv6-fs/vm.c:105-114 | the rows of kmap do not overlap, so setupkvm meets no "remap" |
| `VmKernel.KernelMap` | xv6-fs/vm.c:90-114 | the kernel's part of every address space: I/O space, read-only text, data and free memory, devices, and nothing below KERNBASE |
| `Vm.Setupkvm` | xv6-fs/vm.c:117-136 | a directory with the kernel's map and no user page, which takes exactly 65 frames; or, exactly if fewer are free, a failure with no frame lost |
| `Vm.Allocuvm` | xv6-fs/vm.c:221-250 | exactly the pages of [PGROUNDUP(oldsz), newsz) mapped to zeroed frames off the free list, writable and user; it fails if and only if fewer frames are free than there are pages in the range and directory slots under it without a page table; then the user map, its frames and contents as before and every user frame given back |
| `VmSteps.GrownUndone` | xv6-fs/vm.c:232-247 | deallocuvm over the whole new range undoes a partial allocuvm |
| `VmSteps.GrownConserves` | xv6-fs/vm.c:221-250 | free frames and frames of the address space are together the same set before and after |
| `Vm.Deallocuvm` | xv6-fs/vm.c:256-279 | with its skip over absent page tables it unmaps exactly the range and leaves exactly the free list, in order, that freeing page by page would |
| `VmSteps.DropAbsent` | xv6-fs/vm.c:266-268 | pages that are not present can be skipped: the result up to before and after them is the same |
| `Vm.Freevm` | xv6-fs/vm.c:283-299 | every frame of the address space, user pages, page tables and directory, is free afterwards, and no other |
| `Vm.Copyuvm` | xv6-fs/vm.c:314-345 | the child has the parent's pages below sz with the same flags and contents in frames off the free list, and the kernel's map; the parent is unchanged; the panics exactly at the first page that the parent does not have, unless fewer frames are free than the kernel's part, the pages before it and their page tables take; it fails exactly if too few are free for the pages up to one that the parent has, and no frame is lost |
| `VmKernel.LifeBalanced` | xv6-fs/vm.c:117-299 | setupkvm, then any sequence of allocuvm, failed allocuvm, deallocuvm and stores to user pages, then freevm: exactly the frames are free that were, and no page is written that was not free |
| `VmKernel.ChildBalanced` | xv6-fs/vm.c:283-345 | the same from copyuvm on; a child's frames were all free before it, so none is the parent's |
| `VmWorld.Conservation` | xv6-fs/vm.c:117-345 | any number of address spaces set up, forked, grown, shrunk, written to and freed, in any interleaving: free frames and theirs are together always the frames that were free at first, none is in two places, no other page is written, and when all are gone all frames are free |
| `VmWorld.Isolation` | xv6-fs/vm.c:117-345 | whatever one address space does, failures included, every other one keeps its mappings, its frames and their contents |
| `Umalloc.Insert` | xv6-fs/umalloc.c:29-45 | a block linked in at its place keeps the ring in address order and the blocks disjoint |
| `Umalloc.Merge` | xv6-fs/umalloc.c:33-44 | two blocks that touch become one: the ring, disjointness and the units are kept |
| `Umalloc.Turn` | xv6-fs/umalloc.c:30-32 | the two exit tests of free's search hold at the block's place and nowhere else |
| `Umalloc.Allocator.Free` | xv6-fs/umalloc.c:24-45 | the block is free, no two free blocks touch, all other allocated blocks and all units are as before, and the next search starts at the free block before it |
| `Umalloc.Allocator.Morecore` | xv6-fs/umalloc.c:47-61 | nothing on refusal; else the fresh units are in the heap and some free block has as many |
| `Umalloc.Allocator.Malloc` | xv6-fs/umalloc.c:63-90 | a block of exactly the units needed, disjoint from all others: the first on the list after freep that is large enough, or its tail, and the next search starts before it; sbrk asked exactly when no free block is large enough, and at most once, and then the search is of the list with the new units joined to it; 0 exactly when it refuses, with the list and freep as they were; the search ends |
| `Umalloc.NeedFits` | xv6-fs/umalloc.c:69-69 | a block holds the bytes asked for besides its header if and only if it has the units asked for or more; never more units than sbrk is asked for |
| `Umalloc.CoverCounts` | xv6-fs/umalloc.c:24-90 | blocks that cover the units got from sbrk, each unit once, have those units in total |
| `Umalloc.UnitsConserved` | xv6-fs/umalloc.c:24-90 | units got from sbrk are as many as the units of free and allocated blocks together |
| `Bio.Unlink` | xv6-fs/bio.c:131-132 | taking a buffer out leaves a consistent ring of the others |
| `Bio.PushFront` | xv6-fs/bio.c:133-136 | putting a buffer at the head keeps the ring consistent |
| `Bio.Bcache.Bget` | xv6-fs/bio.c:61-93 | the cached buffer of the block with one more reference, else the idle clean buffer released least recently; the panic exactly when there is neither; at most one buffer per block of a nonzero device |
| `Bio.Bcache.FindIdle` | xv6-fs/bio.c:81-90 | the backward scan finds the idle buffer released least recently |
| `Bio.Bcache.Bread` | xv6-fs/bio.c:95-106 | from where its bget gets the lock: the buffer comes back valid, and if it is clean with the disk's contents; the panic exactly for an invalid buffer of a block that is not on the disk |
| `Bio.Bcache.Iderw` | xv6-fs/memide.c:38-60 | a dirty buffer goes to disk, an invalid one comes from it; the panics exactly |
| `Bio.Bcache.Bwrite` | xv6-fs/bio.c:109-116 | the disk block has the buffer's data, and the buffer is clean |
| `Bio.Bcache.BrelseUnlock` | xv6-fs/bio.c:120-126 | the panic exactly when the caller does not hold the lock, else the lock is free while the reference is still counted |
| `Bio.Bcache.BrelseDrop` | xv6-fs/bio.c:128-140 | one reference less, whoever has locked the buffer since; with the last one the buffer is the most recently released and first on the ring |
| `Bio.AgreesWrite` | xv6-fs/memide.c:54-59 | a disk write does not make any other clean buffer stale |
| `Sleeplock.MutualExclusion` | xv6-fs/sleeplock.c:22-53 | in every run at most one process has the sleep lock, and holdingsleep is true of that one only |
| `Sleeplock.NoLostWakeup` | xv6-fs/proc.c:437-494 | in every run, kills included, a process asleep on the lock finds it taken, or a releaser has yet to finish its wakeup |
| `Sleeplock.SomeoneSteps` | xv6-fs/sleeplock.c:22-42 | while someone sleeps on the lock, some process can step |
| `Sleeplock.CanReturn` | xv6-fs/sleeplock.c:22-42 | from every state of every run there is a way on in which all processes, sleepers included, take the lock, release it and are done |
| `Sleeplock.CanReach` | xv6-fs/sleeplock.c:22-42 | from every state of every run every process can come to every point of acquiresleep, sleep and releasesleep |
| `Sleeplock.KilledTests` | xv6-fs/proc.c:499-517 | kill and three steps of a sleeper bring it to test the lock again, with no step of anyone else |
| `Sleeplock.EarlyLosesWakeup` | xv6-fs/proc.c:446-455 | a sleep that dropped its lock before taking ptable.lock could lose a wakeup: a run that does |
| `Proc.Ptable.Allocproc` | xv6-fs/proc.c:86-107 | the first unused entry, with a pid never given out before; 0 exactly when there is none |
| `Proc.Ptable.Finish` | xv6-fs/proc.c:213-238 | the child is runnable, with the caller, alive, as parent; it starts killed if and only if a kill has hit its entry while it was unused or an embryo, since it was last given back, and if unused the kill named pid 0 or the pid of a fork that had failed |
| `Proc.Ptable.Exit` | xv6-fs/proc.c:247-288 | the caller is a zombie, its children are init's; who is woken is exactly its parent if that sleeps in wait, and init if that sleeps in wait and a zombie is left behind; everyone still has a living parent |
| `Proc.Ptable.Wait` | xv6-fs/proc.c:292-334 | the first zombie child is reaped, its pid for the first time; -1 exactly without children or killed; else asleep with no zombie child |
| `Proc.Ptable.Kill` | xv6-fs/proc.c:499-517 | the first entry with the pid, whatever its state, is marked, and no longer asleep; nothing else |
| `Proc.Ptable.Wakeup` | xv6-fs/proc.c:476-494 | exactly the sleepers on the channel become runnable |
| `Proc.Ptable.Yield` | xv6-fs/proc.c:406-412 | the caller is runnable and nothing else has changed |
| `Proc.ExitKeeps` | xv6-fs/proc.c:265-285 | exit keeps the family invariant: every live or zombie process but init has a living parent, and nobody sleeps in wait with a zombie child |
| `Proc.ReapKeeps` | xv6-fs/proc.c:305-318 | a reaped pid had exited and had not been reaped |
| `Pipe.SlotsAgree` | xv6-fs/pipe.c:94-94 | counters that wrap at 2^32 find the right slot for all counts if and only if the buffer's size divides 2^32 |
| `Pipe.FullTest` | xv6-fs/pipe.c:85-85 | the comparison of wrapped counters is true exactly when the buffer is full |
| `Pipe.Pipe.Write` | xv6-fs/pipe.c:78-98 | as many bytes as fit are appended, in order; then sleep, failure or return exactly as room, readers and killed say |
| `Pipe.Pipe.Read` | xv6-fs/pipe.c:100-121 | the oldest bytes, as many as asked for or there are; sleep or failure exactly on an empty pipe |
| `Pipe.Pipe.Close` | xv6-fs/pipe.c:59-75 | one end closed, no byte lost, freed with the second end |
| `Grep.FirstThenRest` | xv6-fs/grep.c:84-96 | a prefix of the text is in the language of a pattern exactly when it is cut into a match of the first element and of the rest |
| `Grep.Matchhere` | xv6-fs/grep.c:84-96 | true exactly when some prefix of the text is in the pattern's language, up to its end for a final '$' |
| `Grep.Matchstar` | xv6-fs/grep.c:98-106 | true exactly when a run of matching characters is followed by a match |
| `Grep.Match` | xv6-fs/grep.c:72-82 | true exactly when some substring, or after '^' some prefix, is in the pattern's language |
| `PhiloRoom.NeighboursApart` | inclass6/philo_sem4.c:39-72 | for any number and any run, neighbours never eat at the same time |
| `PhiloRoom.SomeoneSteps` | inclass6/philo_sem4.c:39-72 | with N-1 permits some philosopher can step in every state of every run |
| `PhiloRoom.DeadlockFree` | inclass6/philo_sem4.c:82-82 | no run ends in a deadlock if and only if the permits are at least 1 and fewer than N |
| `PhiloRoom.Meals` | inclass6/philo_sem4.c:39-72 | in every run times_eating is one meal for every seven steps of the philosopher's own, at the fourth of them |
| `PhiloParity.NeighboursApart` | inclass6/philo_sem2.c:37-76 | for any number and any run, neighbours never eat at the same time |
| `PhiloParity.SomeoneSteps` | inclass6/philo_sem2.c:37-76 | with odd and even order some philosopher can step in every state of every run |
| `PhiloParity.Meals` | inclass6/philo_sem2.c:37-76 | in every run times_eating is one meal for every five steps of the philosopher's own, at the third of them |
| `PhiloParity.SecondIsFirst` | inclass6/philo_sem2.c:46-61 | one philosopher's second chopstick is another's first only between the ends of an odd ring, which is why no cycle of waiting arises |

## Left out

- The cache of `LogMachine` and `Log` has no bound; `LogBuffers` counts the buffers that are held or dirty against NBUF, and who waits for a buffer's lock counts with its holder.
- `log_write` is one step: the tests it makes before it takes log.lock are taken together with the rest.
- A commit's blocks are changed only by the operations of the transaction: clients log_write a changed block before brelse and end_op, and at most MAXOPBLOCKS new blocks an operation, as the comments of log.c ask.
- `LogFs`: that the log_writes of calls which overlap in a transaction come to what the calls do one after the other is asked of the run; it is not derived from the locks of inodes and buffers. Calls that panic end the run.
- Fs.Fs.Writei: the file is no larger than MAXFILE blocks when it begins, which it keeps so; the same goes for `Fs.Fs.Readi`.
- File.Filewrite: files are without holes, which the bound needs (`File.ChunkExceeds`) and writei keeps (`LogFs.NoHolesKept`). Between its transactions, where xv6-fs/file.c:158-161 has unlocked the inode, the model lets no other writer in.
- fileread calls readi outside a transaction, where the log_write of a filled hole would panic; that readi runs inside or outside a transaction is not modelled.
- The run of the code that fills a disk up to the ones in `FsDisks` is not modelled.
- readi and writei on a device end in `ToDevice`; devsw is not modelled. ialloc, iget, iput, directories and path names are not either.
- `filewrite` on a pipe is `Pipe.Pipe.Write`; the types of struct file and its reference counts are not modelled.
- Page numbers and frames stand for addresses in contracts; segment setup, TLB and cr3 loads, inituvm, loaduvm, clearpteu and copyout are not modelled.
- The user heap: sizes do not overflow, and sbrk gives fresh, unit-aligned regions above the static header `base`.
- `Sleeplock`: releasesleep is called by the holder, as all callers do; sleepers on other channels are not modelled. Spin locks are fair in no way; nothing is proved about progress of a given process.
- `Proc`: kernel stacks, page tables, open files, names and the scheduler's choice are not modelled; pids do not wrap.
- Vm.Allocuvm: the pages between the sizes are not mapped yet, as for every process that grows; the "remap" panic on others is in `Vm.Mappages`.
- Vm.Deallocuvm: sizes are at most KERNBASE, as its callers pass.
- Vm.Copyuvm: sz is at most KERNBASE, as for every process.
- Kalloc.Kmem.Freerange: the range is one of managed frames that are not free yet, as kinit1 and kinit2 pass.
- Bio.Bcache.BrelseUnlock: a holder that has changed a clean buffer has logged or written it, as bio.c asks of its users.
- FsDisks.NewDisk: mkfs is given no files; how it copies files is not modelled.
- The pipe's liveness: a write that fails on a closed pipe skips the wakeup of readers.
- The semaphores of the philosophers are atomic counters; printing is not modelled.
- Everything that touches hardware, the boot path, the console, sh.c, exec.c, sysfile.c and the user programs.
