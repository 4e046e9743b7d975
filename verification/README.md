# Verified models of xv6

A Dafny model of the parts of xv6 (the x86 teaching kernel) whose correctness is hard to see, and
proofs of what they are for. `dafny verify dfyconfig.toml` checks everything.

| files | what they model |
|---|---|
| `Options`, `Blocks` | an optional value; disk blocks and the words in them |
| `LogDisk`, `Log`, `LogSystem`, `LogRefinement`, `LogRuns`, `LogReservation`, `LogOverrun`, `LogGroups` | `log.c`: the redo log, crashes and recovery, group commit, space reservation, and what happens when the log area is too small |
| `BufferRing`, `Bio` | `bio.c` over `memide.c`: the buffer cache and its list |
| `FsModel`, `FsLayout`, `FsAlloc`, `FsBytes`, `FsFiles`, `FsInodes`, `FsTruncate`, `FsDir`, `FileWrite`, `Mkfs` | the block, inode and directory layers of `fs.c`, `filewrite`, and `mkfs.c` as their base case |
| `FsCalls`, `FsCrash` | the file system on top of the log: its calls as transactions, and what crashes keep |
| `Umalloc` | `umalloc.c`: the circular, address-ordered, coalescing free list |
| `ProcTable`, `ProcInvariants`, `ProcFamily`, `ProcTheorems`, `ProcStall`, `ProcScans`, `ProcLife` | `proc.c`, `sleeplock.c`: scheduler, sleep and wakeup, fork, exit, wait |
| `VmModel`, `Vm` | `vm.c`, `kalloc.c`: two-level page tables and the frame allocator |
| `ShSyntax`, `ShGrammar`, `ShParser` | the parser of `sh.c`, and a grammar of its language |
| `Grep` | the matcher of `grep.c` |
| `Pipe` | `pipe.c`: the ring buffer |

How to read the model:

- The disk is a sequence of blocks; one block write is atomic; a crash stops between two writes and
  loses memory. In the log and the file system, blocks are byte sequences and inodes, bitmaps and
  the log header are decoded from those bytes.
- Code that changes fields step by step is a class with methods. Kernel panics are failed results
  where the caller can cause them, and preconditions where the source demands that they never happen.
- Concurrency is a state machine: a step is what one thread does between two points where another
  may intervene. A spin lock is an atomic lock; `swtch` is an atomic transfer of control.
- Words are 32 bits wide wherever wrap-around can matter (file offsets, pipe counters, allocation
  sizes, page table entries).

Where the code differs from what its comments or constants suggest, the code is modelled:

- `log_write` tests the length of the list before it takes `log.lock` (`log.c:218-223`), so two calls
  may both pass the test and both append, and the list can outgrow the log area
  (`LogOverrun.InsideExactly`). In a log area smaller than the buffer cache write_log then overwrites the
  home block behind the area before the header is written. In one at least as large, such a list pins
  every buffer, and commit panics in bget before its first write. `LogOverrun.AtomicExactly` gives the
  exact condition under which every commit is all-or-nothing under crashes:
  `log.size > MAXOPBLOCKS + 2 * limit` or `log.size >= NBUF`, for operations of at most `limit` blocks. mkfs's
  log of LOGSIZE blocks meets it: `LogOverrun.DefaultLogIsSafe`. The crash theorems over whole runs are
  stated under this condition.
- The same test comes before the search for a block to absorb. With operations of up to MAXOPBLOCKS
  blocks the list can reach LOGSIZE and an absorbed block then panics.
  `LogReservation.PanicFreeExactly` gives the exact condition.
- There are as many buffers as the log may list blocks (`param.h:11-12`). A full log pins every buffer,
  and commit's first bread of a log block finds none: `Bio.CommitFindsBuffer`,
  `Bio.FullLogStarvesCommit`. `LogOverrun.NeverStarvedExactly` says when this cannot happen.
- itrunc frees a whole file in one transaction. This fits MAXOPBLOCKS exactly if fewer than
  MAXOPBLOCKS bitmap blocks cover the data area: `FsTruncate.TruncFitsExactly`.
- mkfs rounds the root directory up (`mkfs.c:158-163`) by one block too many when it already ends on
  a block boundary: the image then has a hole, exactly when 30, 62, 94, ... files are given.
- A write end of a pipe that gives up on a full pipe, because it is killed or the reader is gone,
  returns without waking the readers (`pipe.c:86-88`): `ProcStall.GivenUpWriterStallsReader` reaches a
  state with a reader asleep over a full pipe.
- `>>` in the shell is stored with the mode of `>` (`sh.c:388-393`), and open truncates for neither:
  `ShSyntax.AppendOpensLikeOutput`.
- malloc's size computations wrap for requests above 0x7FFFFFF0 bytes: `Umalloc.RequestsExact`.

## Model

| member | source | states |
|---|---|---|
| `LogDisk.HeadRoundTrip` | log.c:84-113 | a list written by write_head is the list read_head reads, for every list that fits the header |
| `LogDisk.HeadFormat` | log.c:34-37 | the header block holds the count in its first four bytes and the block numbers after it, four bytes each |
| `LogDisk.RecoverPrefix` | log.c:115-122 | after any number of recovery's writes the disk recovers to the same home blocks; after all of them they are in place and the header is empty |
| `LogDisk.CommitPrefix` | log.c:192-202 | after any number of commit's writes, what recovery would yield is all old or all new, new exactly once the header has been written |
| `LogDisk.CommitIsAtomic` | log.c:70-202 | a crash between any two writes of commit, then any number of interrupted recoveries and a complete one, leaves the home blocks all old or all new, new exactly when the first write_head reached the disk |
| `Log.CommitEndsAsRecovery` | log.c:192-202 | from the header write on, commit makes the very writes recovery would make |
| `Log.CommitShowsView` | log.c:192-202 | a complete commit leaves on disk what readers of the cache saw, and an empty header |
| `Log.Log.constructor` | log.c:53-66 | initlog leaves the recovered disk and an empty log, having made recovery's writes and no others |
| `Log.Log.WriteLog` | log.c:177-190 | write_log makes exactly the first writes of the pending commit, in order, and keeps every pin |
| `Log.Log.WriteHead` | log.c:101-113 | one block write, of the header with the current list |
| `Log.Log.ReadHead` | log.c:85-96 | the list on disk |
| `Log.Log.InstallTrans` | log.c:69-82 | each logged block goes home, in order, and loses its pin |
| `Log.Log.Commit` | log.c:192-202 | the disk and the trace of writes are those of the commit the crash theorem is about; nothing is written for an empty log, and nothing when the list pins all NBUF buffers, where it panics |
| `Log.Log.Recover` | log.c:115-122 | the disk and the trace of writes are those of recovery |
| `Log.Log.TryBeginOp` | log.c:125-141 | an operation is admitted exactly when no commit runs and its reservation fits |
| `Log.Log.LogWrite` | log.c:213-233 | panics exactly when the log is full or no operation is open; otherwise the block is listed once and pinned with its data |
| `Log.Log.EndOp` | log.c:145-174 | the last operation to end commits: every home block on disk is what the cache showed, and the log is empty; it panics exactly during a commit or when the list pins every buffer, with nothing written |
| `LogSystem.StaysInside` | log.c:126-174 | in a log area with room for MAXOPBLOCKS + 2 limit blocks, the list never leaves it |
| `LogSystem.CommitsInside` | log.c:177-190 | a list that leaves commit a buffer fits the log area, if the area has room for every list or is at least as large as the cache |
| `LogSystem.StepKeeps` | log.c:126-233 | every step of any interleaving, crashes included and log_write's unlocked test a step of its own, keeps the invariant of the log in memory; where commits stay inside the log area it also keeps that of the disk |
| `LogSystem.RunKeeps` | log.c:126-233 | the invariant holds in every state of every run |
| `LogSystem.CrashSafe` | log.c:115-122 | where commits stay inside the log area, the disk can be recovered in every state |
| `LogRefinement.CommitWriteRefines` | log.c:192-202 | the header write makes the whole group durable in one step; every other commit write changes nothing durable |
| `LogRefinement.StepRefines` | log.c:126-233 | where commits stay inside the log area, every step of the logging system is a step of a disk on which groups of operations become durable at once |
| `LogRefinement.DurableWasQuiescent` | log.c:126-233 | in every run whose commits stay inside the log area, what a crash would keep is what was visible at some moment when no operation was open |
| `LogReservation.ReservationHolds` | log.c:126-174 | no operation is open during a commit; the list plus the unused budget of the open operations is at most LOGSIZE; the blocks of an operation land in one commit |
| `LogReservation.PanicFreeExactly` | log.c:214-221 | log_write never panics for operations of at most `limit` blocks if and only if MAXOPBLOCKS + 2 limit is below LOGSIZE and below log.size - 1 |
| `LogRuns.ReachLength` | log.c:126-233 | two operations can build a list of any length up to the bound MAXOPBLOCKS + 2 limit |
| `LogOverrun.ReachOverrun` | log.c:214-233 | without room, two log_write calls that both pass the test reach a list that no longer fits the log area |
| `LogOverrun.InsideExactly` | log.c:214-233 | the list stays inside the log area in every run if and only if the area has room |
| `LogOverrun.TornOutside` | log.c:177-190 | in a log area smaller than the cache and without room, a reachable commit has overwritten a home block with neither its old nor its new contents while the header is still empty |
| `LogOverrun.AtomicExactly` | log.c:177-202 | commits are all-or-nothing under a crash in every reachable state if and only if nothing is ever logged, log.size > MAXOPBLOCKS + 2 limit, or log.size >= NBUF |
| `LogOverrun.StarvedOnlyCrashes` | bio.c:78-92 | when the list pins every buffer, commit cannot go on, and a crash keeps the old contents of every home block |
| `LogOverrun.NeverStarvedExactly` | log.c:177-190 | in a log at least as large as the cache, no commit of any run lacks a buffer if and only if operations log fewer than MAXOPBLOCKS blocks |
| `LogOverrun.DefaultLogIsSafe` | mkfs.c:25-25 | with LOGSIZE blocks of log and operations of MAXOPBLOCKS blocks every reachable state is recoverable and every commit all-or-nothing, although a reachable list leaves the log area and its commit panics |
| `LogGroups.GroupEffect` | log.c:213-233 | from one moment without open operations to the next, what processes see changes by the log_write calls made in between, in the order of log.lock |
| `LogGroups.RunSafe` | log.c:126-233 | what every group of operations keeps, every crash of every run keeps |
| `LogGroups.OperationRuns` | log.c:126-233 | begin_op, any log_write calls on no more home blocks than an operation may log, and end_op make a run, after which processes see those calls |
| `BufferRing.FrontLinked` | bio.c:131-137 | relinking behind the head puts the buffer first and keeps the ring |
| `BufferRing.OutLinked` | bio.c:132-133 | unlinking removes one buffer and keeps the ring of the others |
| `BufferRing.Place` | bio.c:35-36 | the list holds every buffer |
| `Bio.PinMapAt` | bio.c:61-93 | at most one buffer holds a block, so a block is pinned exactly if some buffer holds it dirty, with that buffer's data |
| `Bio.ViewOf` | log.c:223-232 | the data of a valid buffer is what the log's view of the disk, overlaid by the pins, shows for its block |
| `Bio.CommitFindsBuffer` | log.c:177-190 | with the listed blocks pinned and nothing else held, commit finds a buffer for a log block if and only if the list is shorter than the cache |
| `Bio.FullLogStarvesCommit` | param.h:10-12 | with NBUF buffers and a list of LOGSIZE blocks there is no buffer for any other block |
| `Bio.BCache.constructor` | bio.c:38-56 | binit links all buffers into a ring and leaves them unused |
| `Bio.BCache.Lookup` | bio.c:68-76 | finds the buffer of a block if and only if one caches it |
| `Bio.BCache.Victim` | bio.c:78-91 | finds, of all clean unreferenced buffers, the one released longest ago, or reports that there is none |
| `Bio.BCache.Reserve` | bio.c:66-93 | under bcache.lock: the block's buffer with one more reference, or the least recently released clean unreferenced one recycled; never a pinned one; panics exactly if there is none; the pinned blocks stay as they are |
| `Bio.BCache.Lock` | bio.c:73-73 | takes a free sleep lock, and waits exactly for one that is taken |
| `Bio.BCache.Bget` | bio.c:60-93 | the locked buffer, a wait exactly if another holds it, or the panic exactly if the block is not cached and no buffer is idle; the pinned blocks stay as they are |
| `Bio.BCache.Iderw` | memide.c:38-60 | a dirty buffer goes to disk, an invalid one is read from it |
| `Bio.BCache.Load` | bio.c:95-106 | the locked buffer holds the disk's block, or the pinned data over it |
| `Bio.BCache.Bread` | bio.c:95-106 | the returned buffer's data is the block as the log's view of the disk shows it; it waits exactly if another holds the buffer; disk and pinned blocks stay as they are, and the buffer has one reference more |
| `Bio.BCache.ReadBlock` | bio.c:95-141 | bread and brelse together give the block as the log's view shows it and leave every buffer with as many references as before; none is given exactly if the block is not cached and no buffer is idle |
| `Bio.BCache.SetData` | log.c:208-212 | the holder's change of a buffer changes a pinned block with it and no other |
| `Bio.BCache.Pin` | log.c:223-232 | marking the buffer dirty adds this one block, with its data, to the pinned ones |
| `Bio.BCache.Bwrite` | bio.c:108-116 | the block reaches the disk and leaves the pinned ones; every other block and pin stays |
| `Bio.BCache.Brelse` | bio.c:118-141 | with the last reference the buffer becomes the most recently released of all; the pinned blocks stay as they are |
| `FsModel.OneReferrer` | fs.c:362-400 | no block is referenced by two slots |
| `FsModel.BitMeaning` | fs.c:53-95 | a bitmap bit is set if and only if the block is metadata or is referenced by a slot of an allocated inode |
| `FsModel.AttachKeeps` | fs.c:378-388 | hanging a free block into an empty direct or indirect slot keeps the bitmap exact |
| `FsModel.AttachFarKeeps` | fs.c:389-396 | the same for an entry of the indirect block |
| `FsModel.PutBlockKeeps` | fs.c:498-504 | overwriting a data block keeps the bitmap exact |
| `FsModel.RangeJoin` | fs.c:372-400 | the blocks a range of a file needs are those its first part needs and those its second part needs after that, indirect block included |
| `FsModel.TruncateKeeps` | fs.c:407-435 | clearing an inode's addresses and exactly its blocks' bits keeps the bitmap exact |
| `FsLayout.WithBitIs` | fs.c:66-69 | setting or clearing a bit of a byte changes that bit alone |
| `FsLayout.DinodeRoundTrip` | fs.c:220-236 | an inode written into its block is read back unchanged |
| `FsLayout.DinodeOther` | fs.c:220-236 | the other inodes of that block are not touched |
| `FsLayout.InodeFormat` | fs.h:29-42 | where on the disk each field of each inode lies, byte by byte |
| `FsLayout.BitFormat` | fs.h:44-48 | where on the disk the bit of each block lies |
| `FsLayout.WriteBitIs` | fs.c:62-78 | writing a bitmap block changes the decoded bitmap at one bit and nothing else of the file system |
| `FsLayout.WriteInodeIs` | fs.c:220-236 | writing an inode block changes one decoded inode and nothing else |
| `FsLayout.WriteDataIs` | fs.c:498-504 | writing a data block changes that block and no bitmap bit or inode |
| `FsAlloc.FileSystem.ScanBitmap` | fs.c:65-74 | the first clear bit of a bitmap block, if any |
| `FsAlloc.FileSystem.FirstFree` | fs.c:63-76 | the search finds the lowest free block, or none if there is none |
| `FsAlloc.FileSystem.Balloc` | fs.c:56-78 | allocates the lowest free block, zeroed, and logs its bitmap block and itself; panics exactly when the disk is full |
| `FsAlloc.FileSystem.Bfree` | fs.c:81-95 | frees one block, or panics exactly when its bit is clear |
| `FsAlloc.FileSystem.Iupdate` | fs.c:220-236 | type, major, minor, nlink, size and addrs of the inode on disk become those of the cached one; no other inode, bit or block changes |
| `FsAlloc.FileSystem.Ilock` | fs.c:287-313 | an entry that is not valid takes all six fields from the disk, a valid one stays; panics exactly without a reference or for a free inode |
| `FsAlloc.FileSystem.Reread` | fs.c:217-313 | the inode cache is write-through: after iupdate, ilock of an entry recycled for the same inode finds the same six fields |
| `FsAlloc.FileSystem.Bmap` | fs.c:372-400 | the data block of a file block, allocated where missing; nothing mapped moves or changes; a mapped block costs nothing; fails exactly beyond MAXFILE or when fewer blocks are free than it has to allocate (none, one, or two with the indirect block) |
| `FsAlloc.FileSystem.BmapFar` | fs.c:385-397 | the same through the indirect block, with the blocks it may log and the exact condition of failure |
| `FsBytes.PutBlockWrites` | fs.c:498-504 | storing a chunk into its block replaces exactly those bytes of the file and of no other file |
| `FsBytes.WrittenContent` | fs.c:481-511 | a write replaces exactly `off .. off+n` of the file's byte sequence, extending it where needed |
| `FsBytes.WrittenOther` | fs.c:481-511 | a write leaves every other file's bytes alone |
| `FsFiles.ReadChunk` | fs.c:469-474 | one block's share of a read, without allocating |
| `FsFiles.ReadRange` | fs.c:469-474 | the loop returns the bytes asked for and changes nothing |
| `FsFiles.Readi` | fs.c:452-476 | returns exactly the clipped slice of the file, never allocates, and is rejected exactly for an offset past the end or a sum that wraps |
| `FsFiles.WriteChunk` | fs.c:498-504 | one iteration: the bytes are stored, the block is mapped, and the blocks logged are bounded |
| `FsFiles.WriteLoop` | fs.c:498-504 | the loop stores all bytes and bounds the distinct data, bitmap and indirect blocks it logs; the addresses change only if the file grows |
| `FsFiles.GrownNoHoles` | fs.c:493-509 | a write that starts at or before the end leaves no hole in any file |
| `FsFiles.EndWrite` | fs.c:506-509 | the cached inode agrees with the disk even when iupdate is skipped |
| `FsFiles.Writei` | fs.c:481-511 | a successful write refines the byte sequence, keeps the bitmap exact and the files without holes, and bounds what it logs; it is rejected exactly when the code says, and panics if and only if fewer blocks are free than the range has to allocate, indirect block included |
| `FsInodes.FreeSlot` | fs.c:414-419 | the block of a slot is freed; "freeing free block" cannot happen |
| `FsInodes.FreeFar` | fs.c:421-431 | all blocks of the indirect block, and it, are freed |
| `FsInodes.Itrunc` | fs.c:407-435 | exactly the inode's blocks are freed, every other inode and all data stay; it logs exactly the bitmap blocks of those blocks and the inode's block |
| `FsInodes.Iput` | fs.c:331-352 | frees the inode exactly when it was valid, unlinked and last referenced; invariants and other files are kept; what it logs is what itrunc logs |
| `FsInodes.Ialloc` | fs.c:194-214 | takes the first free inode, or fails exactly if there is none; no hole, exact bitmap |
| `FsDir.Namecmp` | fs.c:516-520 | equal exactly if the names agree up to their first NUL within DIRSIZ bytes |
| `FsDir.Dirlookup` | fs.c:524-548 | the first entry in use with the name, and its offset; none exactly if there is none; panics exactly on a file that is no directory or at a cut-off last entry |
| `FsDir.NamesOne` | fs.c:524-548 | a name stands for one inode at most |
| `FsDir.DirentBack` | fs.h:53-56 | an entry written with a number and a name is read back with that number and the name cut to DIRSIZ bytes |
| `FsTruncate.TruncBound` | fs.c:407-435 | freeing a file logs at most one block more than there are bitmap blocks for the data area |
| `FsTruncate.SpreadTooMuch` | fs.c:407-435 | a file whose ten blocks have their bits in ten bitmap blocks logs more than MAXOPBLOCKS when it is freed |
| `FsTruncate.TruncFitsExactly` | fs.c:407-435 | freeing any file of any sound file system fits MAXOPBLOCKS if and only if fewer than MAXOPBLOCKS bitmap blocks cover the data area, or there is no inode to allocate |
| `FileWrite.ChunkTouches` | file.c:127-138 | a chunk touches at most three blocks, four when unaligned |
| `FileWrite.ChunkExactly` | file.c:127-134 | of whole numbers of blocks, exactly those up to the chunk size fit MAXOPBLOCKS log blocks at every offset |
| `FileWrite.ChunkBudget` | file.c:127-138 | a chunk logs at most MAXOPBLOCKS distinct blocks on a disk of any size, and at most six more than the disk has bitmap blocks |
| `FileWrite.WriteTransaction` | file.c:140-145 | one chunk: its bytes are stored, its cost is within the budget, the offset advances; panics exactly for lack of free blocks |
| `FileWrite.CountJoin` | file.c:127-150 | what the chunks allocate adds up to what the whole range needs, although a chunk may begin in the last block of the one before |
| `FileWrite.Filewrite` | file.c:117-156 | stores all bytes, or as many whole chunks as the largest file size allows, or none past the end of the file, and the return value says which; panics if and only if fewer blocks are free than that prefix needs; all chunks keep within the budget |
| `Mkfs.LayoutGood` | mkfs.c:23-103 | the layout mkfs computes from any disk size, inode count and log size is good exactly if the metadata fits the disk, and its areas lie end to end |
| `Mkfs.Image.constructor` | mkfs.c:93-115 | a zeroed image with a super block satisfies the invariants |
| `Mkfs.NeedsNext` | mkfs.c:267-287 | the blocks an iteration has to take are exactly those by which the file's block count, indirect block included, grows |
| `Mkfs.Image.Iappend` | mkfs.c:255-297 | appends the bytes to one inode, keeps the invariants and the other inodes; stops mkfs exactly if the file would pass the largest size or the image has too few blocks left |
| `Mkfs.Image.Ialloc` | mkfs.c:223-235 | the next inode, empty; the model stops where mkfs goes on beyond the inodes the super block announces |
| `Mkfs.Image.Balloc` | mkfs.c:237-251 | the bitmap written marks exactly the blocks handed out; refuses exactly more than one bitmap block's worth |
| `Mkfs.RoundUp` | mkfs.c:158-163 | rounding the root directory up leaves no hole if and only if its size was not a multiple of BSIZE |
| `Mkfs.Image.Finish` | mkfs.c:158-165 | the finished image has an exact bitmap, and no hole if and only if the root directory did not end on a block boundary |
| `Mkfs.BlockBoundary` | mkfs.c:120-156 | the directory ends on a block boundary exactly after 30, 62, 94, ... files |
| `Mkfs.BuildImage` | mkfs.c:67-168 | for lists of files that do not outrun the inodes, which mkfs does not test, ends normally if and only if file sizes and the total of blocks, directory and indirect blocks included, fit; every host file's contents are then in its inode, "/" is a directory that lists itself, itself and the files in order under their names, the log is empty, the bitmap is exact, and no file has a hole if and only if the number of files is not 30 modulo 32 |
| `Mkfs.LookupDots` | mkfs.c:120-128 | in that directory "." and ".." stand for the directory itself |
| `Mkfs.LookupFile` | mkfs.c:130-156 | any other name stands for the inode of the first file whose name, cut to DIRSIZ bytes, it is |
| `Mkfs.LookupNothing` | mkfs.c:120-156 | a name that no file has is in no entry, the padding up to a whole block included |
| `Mkfs.ThirtyFiles` | mkfs.c:67-168 | on the default disk, thirty files give an image with a hole |
| `FsCalls.SteadyIsConsistent` | fs.c:481-511 | what the file system's calls begin and end with is consistency of the disk |
| `FsCalls.WriteChunkCall` | file.c:140-145 | the log_write calls of one transaction of filewrite lead from one consistent disk to another and write exactly the chunk, on at most MAXOPBLOCKS blocks |
| `FsCalls.FreeFileCall` | fs.c:331-352 | those of the last iput of an unlinked file lead to a consistent disk without the file; the blocks logged are exactly itrunc's |
| `FsCalls.AllocInodeCall` | fs.c:194-214 | those of ialloc lead to a consistent disk with one more inode |
| `FsCalls.CallElsewhere` | fs.c:481-511 | a call is the same call on a disk that differs in the log area only |
| `FsCrash.CrashConsistent` | log.c:126-233 | in every run whose commits stay inside the log area, if each group of operations as a whole keeps the file system consistent, then at every moment what a crash would keep is a consistent file system, and so is what processes see when no operation is open |
| `FsCrash.RecoveredConsistent` | log.c:115-122 | a complete recovery after a crash at any moment of such a run leaves a disk that decodes to a file system with an exact bitmap and no holes |
| `FsCrash.SerialRunKeeps` | log.c:126-233 | groups whose log_write calls are those of whole calls, one after the other, keep the file system consistent |
| `FsCrash.CrashKeepsWholeCalls` | log.c:126-233 | in every run of such groups, crashes included, what a crash would keep at any moment is the disk at boot after some sequence of calls, each of them whole |
| `FsCrash.CallIsOperation` | log.c:126-233 | a call of the file system that logs no more blocks than an operation may is an operation of the log, after which processes see what the call did |
| `FsCrash.FromMkfs` | mkfs.c:67-168 | on an image as mkfs leaves it, under any such calls and crashes, a complete recovery leaves a consistent file system |
| `Umalloc.Ascending` | umalloc.c:25-44 | free blocks never overlap or touch, and the ring ascends with one wrap |
| `Umalloc.FoundExactly` | umalloc.c:30-32 | free's search stops at exactly one place of the ring, so it terminates |
| `Umalloc.MergeTiles` | umalloc.c:33-42 | coalescing keeps the exact tiling of memory |
| `Umalloc.SplitTiles` | umalloc.c:78-82 | cutting a block's tail off keeps the tiling |
| `Umalloc.GrowTiles` | umalloc.c:54-59 | new memory extends the tiling |
| `Umalloc.FreeGood` | umalloc.c:33-42 | the four header writes of free insert the block, merged with its neighbours, into a good ring, and touch no live block |
| `Umalloc.Allocator.constructor` | umalloc.c:21-22 | an allocator that has not been used |
| `Umalloc.Allocator.FindBelow` | umalloc.c:30-32 | the loop ends at the free block below the one freed |
| `Umalloc.Allocator.Free` | umalloc.c:24-44 | the block leaves the live set; ring order, coalescing and tiling hold; other live blocks are kept; a free block at least as large exists; freep ends at the free block below it |
| `Umalloc.Allocator.Morecore` | umalloc.c:46-61 | adds exactly the granted units, or nothing when sbrk refuses |
| `Umalloc.Allocator.Carve` | umalloc.c:75-85 | the block found, or its tail, becomes a live block of exactly the units asked for, its last ones; freep ends at the block before it |
| `Umalloc.NothingServes` | umalloc.c:74-87 | when the search is back at freep, no free block was large enough |
| `Umalloc.Allocator.Pass` | umalloc.c:86-89 | each step gets nearer to freep, and morecore is called at most once |
| `Umalloc.Allocator.Malloc` | umalloc.c:63-90 | terminates; null if and only if nothing was large enough and sbrk refused; otherwise a new live block of exactly the right size apart from all others, with ring and tiling kept; memory grows by exactly the granted units if and only if nothing was large enough; the block is the first large enough from freep on, in ring order, freep ends before it, and the block holds the bytes asked for with less than a unit to spare |
| `Umalloc.RequestsExact` | umalloc.c:52-69 | the units computed hold the bytes asked for, and sbrk is asked for them, if and only if the request is at most MAXREQUEST |
| `ProcScans.PTable.Wakeup1` | proc.c:457-465 | a process asleep on the channel becomes runnable and changes in nothing else; no other process changes |
| `ProcScans.PTable.AllocProc` | proc.c:79-92 | takes the first unused slot and the next pid, or reports that all are in use |
| `ProcScans.PTable.ExitScan` | proc.c:250-265 | slot by slot: the parent of each child becomes init; a sleeper becomes runnable exactly if it sleeps in the wait of the parent, or of init when a child is a zombie; the exiting process becomes a zombie; nothing else changes |
| `ProcScans.PTable.WaitScan` | proc.c:281-302 | finds a zombie child if and only if there is one, and whether there are children |
| `ProcInvariants.SchedKeeps` | proc.c:322-356 | every scheduler step keeps the invariant |
| `ProcInvariants.LockKeeps` | proc.c:418-474 | changes of protected data keep it: a sleeper's condition is false or its wakeup is owed |
| `ProcInvariants.SelfKeeps` | proc.c:418-452 | the steps of sleep before and after the switch keep it |
| `ProcInvariants.LeaveKeeps` | proc.c:385-452 | yield, sleep and wait keep it when they switch to the scheduler |
| `ProcFamily.ForkKeeps` | proc.c:180-222 | fork keeps it, although two of its writes are made without the lock |
| `ProcFamily.ReapKeeps` | proc.c:287-300 | reaping a child keeps it |
| `ProcFamily.ExitKeeps` | proc.c:250-266 | exit keeps it |
| `ProcFamily.RunKeeps` | proc.c:181-474 | the invariant holds in every state of every run, for any number of processes and CPUs |
| `ProcTheorems.OneToOne` | proc.c:322-392 | whenever ptable.lock is free, RUNNING processes and CPUs with a process correspond one to one |
| `ProcTheorems.WaitersAreTold` | proc.c:228-312 | no process asleep in wait has a zombie child; every process past fork except init has a live parent |
| `ProcTheorems.ReapedOnce` | proc.c:228-312 | wait returns a pid at most once and only after it exited; an exited pid not yet returned is a zombie whose live parent is not asleep in wait |
| `ProcTheorems.PidsUnique` | proc.c:88-92 | no two slots in use share a pid |
| `ProcLife.LifeCycle` | proc.c:73-509 | in every run, which step by whom takes a process from which state to which, gives it a parent and a pid; no other step changes them |
| `ProcLife.SleepsUntilWoken` | proc.c:418-474 | in every run a sleeper becomes runnable at exactly the steps that concern it: a wakeup of its channel, kill, or the exit of a process its wait concerns; a wakeup of another channel changes nothing of it |
| `ProcLife.WholePass` | proc.c:322-357 | in every run a scheduler that ends its pass has, since it took ptable.lock, looked at every slot: found it not runnable or run its process |
| `ProcTheorems.NoLostWakeup` | proc.c:418-474 | for any disciplined clients, a process asleep on a channel whose lock is free waits for a condition that is false, or a holder of the lock has since given up without the wakeup it owed |
| `ProcTheorems.KernelIsDisciplined` | log.c:126-174 | the log, sleep locks and pipes change their conditions only under the lock and then owe a wakeup, or change them to false; only a writer of a full pipe may leave it unpaid |
| `ProcTheorems.KernelNeverStalls` | sleeplock.c:22-42 | whoever sleeps in begin_op, acquiresleep or pipewrite while the lock is free really has to wait; so does a sleeper in piperead, whose condition includes the closed write end, unless since the last wakeup a writer gave up on the full pipe |
| `ProcStall.GivenUpWriterStallsReader` | pipe.c:85-92 | a reachable state has the pipe's lock free, the pipe full, no wakeup owed and the reader asleep |
| `VmModel.FramesDistinct` | vm.c:222-249 | no two slots of any two address spaces hold the same frame |
| `VmModel.NewTableKeeps` | vm.c:44-53 | adding a page table changes no mapping |
| `VmModel.MapKeeps` | vm.c:69-73 | mapping an unused frame keeps ownership exact |
| `VmModel.UnmapKeeps` | vm.c:269-276 | clearing an entry keeps ownership exact |
| `Vm.Kernel.constructor` | kalloc.c:31-37 | before kinit1 no frame is free |
| `VmModel.MissingJoin` | vm.c:35-80 | the page tables a range needs are those its first part needs and those its second part needs after that |
| `Vm.Kernel.Kalloc` | kalloc.c:82-95 | takes one free frame, or reports that none is free |
| `Vm.Kernel.Kfree` | kalloc.c:59-77 | puts one frame on the free list and touches no other |
| `Vm.Kernel.FreeRange` | kalloc.c:46-53 | frees exactly the whole pages of the range |
| `Vm.Kernel.WalkPgdir` | vm.c:35-55 | finds the entry; without alloc nothing changes; with it at most one free frame becomes a page table and no mapping changes; fails exactly when there is none to be had |
| `Vm.Kernel.MapPages` | vm.c:60-80 | maps exactly the pages of the range to consecutive frames, or a prefix of them with no frame left free; succeeds if and only if the free frames suffice for the missing page tables |
| `Vm.MappedIs` | vm.c:60-80 | as a partial map from pages to frames and flags, mappages adds exactly the range |
| `Vm.Kernel.SetupKvm` | vm.c:105-136 | a directory if and only if 65 frames are free, otherwise every frame as it was; each page from KERNBASE to KERNBASE + PHYSTOP maps the frame at its address less KERNBASE, each from DEVSPACE on maps itself, no other is present, none is for the user, and exactly those from KERNLINK to data are read-only |
| `Vm.KernelMap` | vm.c:105-115 | the four mappings of the table amount to that layout, for every place of the kernel's data |
| `Vm.DirectMap` | kalloc.c:55-77 | in every address space the kernel reaches each frame at the address kalloc and kfree use for it, writable unless the frame holds the kernel's text |
| `Vm.KmapsApart` | vm.c:105-115 | the kernel's four mappings do not overlap, so "remap" cannot happen |
| `Vm.Kernel.DeallocUvm` | vm.c:255-279 | frees and unmaps exactly the present pages of the range, whichever page tables are missing |
| `Vm.FreedIs` | vm.c:255-279 | as a partial map, deallocuvm removes exactly the range |
| `Vm.NoTable` | vm.c:266-268 | the skip over a missing page table passes only pages that map nothing |
| `Vm.Kernel.AllocUvm` | vm.c:221-249 | maps fresh zeroed frames if and only if the free frames suffice for the pages and their missing page tables; on failure it leaves every mapping as it was, with at most free frames turned into page tables |
| `Vm.RestoredIs` | vm.c:235-246 | a failed allocuvm changes no address space |
| `Vm.WalkedIs` | vm.c:35-55 | the entry the code finds is the one the processor finds by bits 22 to 31 and 12 to 21 of the address |
| `Vm.UserMayWriteIs` | vm.c:44-53 | every directory entry is present, writable and for the user, so the page table's entry alone decides what the user may do |
| `Vm.GrownUsable` | vm.c:221-249 | the user may read and write every address allocuvm added, and finds zeros there |
| `Vm.Kernel.FreeVm` | vm.c:283-298 | every frame of the address space becomes free, every other keeps owner and contents |
| `Vm.ReleasedSound` | vm.c:283-298 | what is left is sound |
| `Vm.Kernel.CopyUvm` | vm.c:315-345 | a child with the parent's bytes and flags in frames that were free, if and only if the free frames suffice for its kernel part, its pages and their page tables; otherwise nothing, with exactly the same frames free as before; its kernel part is laid out as setupkvm's |
| `Vm.CopyIsPrivate` | vm.c:315-345 | the child's frames are distinct from each other and from every frame in use before |
| `Vm.CopyUsable` | vm.c:315-345 | in a copy the user may write exactly where the parent may, and finds the same page there |
| `Vm.OtherSpaces` | vm.c:222-345 | an operation on one address space leaves all others as they were |
| `ShSyntax.RoundTrip` | sh.c:327-446 | parsing the printed form of any command with legal words and fewer than MAXARGS arguments gives the command back |
| `ShSyntax.LineBack` | sh.c:344-359 | the same for a line followed by more input, for every nesting |
| `ShSyntax.ExecBack` | sh.c:399-446 | the same where the grammar wants a simple command or a block |
| `ShSyntax.LexRender` | sh.c:265-308 | printed tokens are read back as the same tokens |
| `ShSyntax.ParsedIsLegal` | sh.c:327-342 | every accepted line yields a legal command, and its printed form parses to the same command |
| `ShSyntax.AppendOpensLikeOutput` | sh.c:384-394 | with every `>>` written `>`, a line parses to the same command, open modes and descriptors included |
| `ShGrammar.ParsesExactly` | sh.c:327-446 | the parser accepts exactly the lines of the grammar, with the meaning the grammar gives them |
| `ShGrammar.SimpleParse` | sh.c:417-446 | a simple command is parsed by its words and its redirections with file, mode and descriptor, in order, wherever they stand among each other; it panics exactly with MAXARGS words or more |
| `ShGrammar.WordsFirst` | sh.c:417-446 | a simple command parses as if its words came first and its redirections after them |
| `ShGrammar.LexesExactly` | sh.c:265-308 | the tokens of a line are exactly those that spell it: blanks between tokens are free, a word must not run on and `>` must not become `>>` |
| `ShParser.Peek` | sh.c:310-320 | skips blanks only, and tells whether the next character is one of those asked for |
| `ShParser.GetToken` | sh.c:265-308 | returns the next token of the line, where it lies, and the position after it |
| `ShParser.ParseRedirs` | sh.c:374-397 | wraps the command in exactly the redirections that follow |
| `ShParser.ParseArgs` | sh.c:429-446 | collects the arguments and redirections the grammar says, or panics as it says; where words and redirections mix, `ShGrammar.SimpleParse` says what that is |
| `ShParser.ParseExec` | sh.c:399-446 | agrees with the grammar on simple commands and blocks |
| `ShParser.ParsePipe` | sh.c:361-372 | agrees with the grammar on pipelines |
| `ShParser.ParseLine` | sh.c:344-359 | agrees with the grammar on lines, and terminates |
| `ShParser.NulTerminate` | sh.c:449-493 | overwrites exactly the positions after the strings of the tree |
| `ShParser.CTextIs` | sh.c:449-493 | afterwards each C string of the tree is exactly its token |
| `ShParser.ParseCmd` | sh.c:327-342 | the tree's C strings spell the command the grammar assigns to the line, no character of any word is altered, and a refused line panics with nothing written |
| `Grep.PrefixStar` | grep.c:98-106 | a starred character matches zero or more fitting characters and then the rest |
| `Grep.MatchesSomewhere` | grep.c:77-81 | a substring matches if and only if a prefix of some suffix does |
| `Grep.Match` | grep.c:72-82 | true if and only if some substring, a prefix after `^`, is in the pattern's language |
| `Grep.MatchHere` | grep.c:85-96 | true if and only if some prefix of the text is in the language |
| `Grep.MatchStar` | grep.c:99-106 | the same for a starred character before the rest |
| `Grep.ParseUnparse` | grep.c:85-96 | the string of a pattern is read as that pattern, for every pattern that has one |
| `Grep.UnparseParse` | grep.c:85-96 | every string spells the pattern it is read as |
| `Grep.LiteralIsSubstring` | grep.c:72-96 | a pattern without special characters matches exactly the texts that contain it |
| `Grep.AnchoredIsWhole` | grep.c:72-96 | between `^` and `$` such a pattern matches exactly itself |
| `Grep.StarIsAnyNumber` | grep.c:98-106 | `^c*$` matches exactly the texts of any number of c, none included; with `.` every text |
| `Grep.DotIsOne` | grep.c:85-96 | `^.$` matches exactly the texts of one character |
| `Pipe.CountersExact` | pipe.c:85-114 | the tests for full and empty are exact although the counters wrap |
| `Pipe.Pipe.constructor` | pipe.c:33-36 | an open, empty pipe |
| `Pipe.Pipe.WriteStretch` | pipe.c:84-94 | appends the bytes it accepts in order and stops exactly when the pipe is full, failing exactly if the reader is gone or the writer killed |
| `Pipe.Pipe.MustSleep` | pipe.c:106-106 | a reader waits exactly when the pipe is empty and a writer may still come |
| `Pipe.Pipe.ReadStretch` | pipe.c:113-117 | removes and returns as many bytes as there are, up to the number asked for, in order |
| `Pipe.Pipe.Close` | pipe.c:59-75 | the pipe is freed exactly when both ends are closed |
| `Pipe.Fifo` | pipe.c:78-121 | in any history of stretches the bytes accepted are the bytes returned followed by those pending |
| `Pipe.PrefixReturned` | pipe.c:78-121 | in every pipe, for any readers and writers, the bytes returned are a prefix of the bytes accepted and the rest, as many as the wrapping counters tell and at most PIPESIZE, is pending in the ring |

## Left out

- LogOverrun.InsideExactly, LogOverrun.AtomicExactly, LogReservation.PanicFreeExactly: for disks with
  at least LOGSIZE home blocks behind the log, on which the runs that break the property fit; the
  other direction, that room in the log is enough, holds on every disk.
- log.c: after write_log has written outside the log area, only a crash is modelled, not the rest of
  that commit.
- log.c: log_write's two tests are one step; the second, for an open operation, is never false for a
  caller inside begin_op and end_op.
- log.c: the log is modelled over a view of the disk overlaid by pinned blocks, and the buffer cache
  below it apart; the cache's methods are proved to keep that view as the log assumes. Of the panic
  for lack of a buffer the log knows the case that its own list pins them all; readers that hold the
  others can bring it about earlier, which again leaves only a crash.
- fs.c: interleavings inside the file system; its operations are modelled under the locks they hold,
  one at a time, inside a transaction. That the log_write calls of a group are those of whole calls in
  some order, which the inode locks bring about, is the hypothesis of `FsCrash.CrashKeepsWholeCalls`.
- fs.c: dirlink, path names (skipelem, namex), the table of cached inodes (iget, idup) and link counts;
  reference counts of cached inodes do not reach the disk. ilock is modelled once it has the sleep
  lock.
- FsDir.Dirlookup: on a directory without holes; readi's bmap would map a hole as it reads.
- fs.c: the T_DEV branches of readi and writei, which call through function pointers.
- FsFiles.Readi: the offset and count of one call; that the blocks read are not changed meanwhile is
  the inode lock's doing and is not modelled.
- file.c: the file table, reference counts and fileread; filewrite's pipe branch is Pipe.
- Mkfs.BuildImage: what "/" lists, for directories below the largest file size; one of that size is
  rounded up beyond it, and cannot be read to its end.
- mkfs.c: reading the host files and the super block's own bytes; running off the image is a failed
  result where mkfs stops.
- Mkfs.Image.Ialloc: beyond the inodes the super block announces mkfs goes on, into the rest of the inode
  blocks and then the bitmap; the model reports a failed result there.
- Mkfs.BuildImage: with that many files it fails where mkfs would end with an image whose last files no
  inode of the file system holds.
- Umalloc.Allocator.Malloc: requests above MAXREQUEST bytes, where the code's own arithmetic wraps.
- umalloc.c: sbrk is a parameter that grants memory at or above the previous break, or refuses.
- proc.c: kill, except as a spurious wakeup; growproc; register contents; nextpid as a 32-bit counter.
- proc.c: fairness and progress: what is proved is safety over every run.
- ProcScans.PTable.AllocProc: the kernel stack that allocproc sets up after it has released the lock.
- vm.c: segment set-up, loaduvm, inituvm, clearpteu, copyout, and the processor's use of the tables.
- Vm.Kernel.MapPages: a range that wraps past the end of the address space.
- kalloc.c: the two-phase use of its lock; each call is modelled as atomic.
- bio.c: a wait for a buffer's sleep lock ends the modelled call with the result `Waits`; the sleep
  itself is in ProcTable.
- sh.c: running commands, reading lines, and allocation of the tree's nodes, which is built as a value.
- grep.c: the loop that reads the input; it drops partial lines and has no line-level meaning.
- pipe.c: pipealloc's file structures; a pipe is modelled from its creation to its last close.
- Booting, traps, system call argument fetching, devices, the console, and the other user programs.
