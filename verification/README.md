# A verified model of the xv6 kernel's hard parts

This project models the MIT xv6 RISC-V kernel and four of its user programs in Dafny
and proves what they promise: a crash-safe file system on a redo log, page tables that
behave as maps over a conserved pool of frames, blocking and process lifetime without
lost wakeups, and the allocator, matcher and parser of user space.

`dafny verify dfyconfig.toml` checks the whole project.

## Layout

| files | what they model |
|---|---|
| Params, Blocks, BufferCache | the constants of the kernel; disk blocks and the buffer cache: a ring of buffers that shows the latest contents of each block |
| RedoLog, Journal, LogAdmission | what the log's writes mean to a disk that may crash between any two; the code that makes those writes; which operations may enter the log |
| FsLayout, FileSystem, FileIo, FileCrash, FileJournal | bitmap, inodes and block ownership; allocation, mapping and truncation; reading, writing and the transactions of a large write; what a crash inside one leaves; those transactions carried out by the cache and the log |
| Mkfs | the program that makes the first image, as the beginning of the file system's invariants |
| Directory, Paths | directories as finite maps and paths as walks |
| PageTable, VirtualMemory, FrameBudget, UserMemory, AddressSpace, CopyFailure, UserCopy | frames and three-level tables; the frame allocator, walk and mappages; how many frames a mapping takes; unmapping and growing; copying and freeing; a copy whose rollback panics; bytes in and out |
| SleepLock, ProcTree | sleep-locks, sleep, wakeup and the scheduler; fork, exit, wait and kill |
| Pipe, Virtio | the pipe's ring and the disk's descriptor rings |
| Malloc, Grep, Shell, ShellGrammar, ShellCode | the user programs: allocator, matcher and line loop; the shell parser on tokens and a printer, the grammar it accepts, the parser on its buffer |

Objects whose fields the kernel updates are classes with the same fields; protocols
between processes, CPUs and devices are state machines over their steps, with theorems
over every run. A panic is a state proved unreachable, or an outcome of the method.
Faults in user memory, the answers of sbrk and the sizes that read returns are
parameters. Page-table constants follow section 4.4 (Sv39) of the RISC-V Privileged
Architecture, and the disk rings sections 2.6 and 5.2 of Virtio 1.1.

Where code and comments part, the code is modelled. Nine promises do not hold as they
stand. Each has its exact condition and a case where it fails:

- An operation may log MAXOPBLOCKS blocks. Three of them overflow the log that mkfs lays
  out (LogAdmission.SafeBudget, Overflow).
- Every block below the size of the root directory is allocated. Rounding the size up can
  leave one that is not (Mkfs.Make, RootHole).
- writei reports what it wrote, and logs what it changed. A fault in the middle of a block
  leaves bytes past the count in the cache (FileIo.TornShows, TornNever, TornOnce), and
  that block is not logged if it was there before, was not logged already and has changed
  (FileIo.Writei, TornLogged). The disk of a file with no missing block still gets just the bytes counted
  (FileIo.LeavesCounted).
- A change made through a buffer lasts. One released without log_write is lost when the
  buffer is recycled, if that was the last reference (Journal.FsLog.Release,
  BufferCache.LoseFirst). Listed blocks lose nothing, whatever is released beside them
  (Journal.ListedStays), and the commit goes on as before (Journal.FsLog.Commit).
- A file can be read outside an operation. A read that reaches a block that was never
  allocated panics in log_write; inside an operation it leaves the disk with a block that
  no inode has, unless the address goes into an indirect block (FileIo.Readi, Mkfs.ReadRootHole).
- A reader sleeps only on an empty pipe. A writer killed midway wakes nobody
  (Pipe.Pipe.Write, KilledWriter).
- kill wakes a sleeper. A kill that comes after wait has looked for one, and before wait
  sleeps, leaves the process asleep until something else wakes it (ProcTree.KilledIff,
  LateKill).
- uvmcopy frees what it allocated when memory runs out. Its rollback panics if the child
  has no table for an earlier page (AddressSpace.UvmCopy, CopyFailure.CopyPanics).
- grep prints every matching line. A line too long for its buffer ends the output
  (Grep.CompleteIff, LongLineLost).

A chunk of filewrite logs at most 7 blocks on a disk with one bitmap block, which is
within the safe budget; with more bitmap blocks it may log 10, which is not.

## Model

| member | source | states |
|---|---|---|
| RedoLog.CrashInCommit | kernel/log.c:178-203 | after any prefix of the single-block writes of a commit the disk stands for the old home blocks, or for the whole transaction, and which of the two is decided only by whether the first header write has happened |
| RedoLog.CrashInRecovery | kernel/log.c:68-123 | after any prefix of the writes of recovery the disk still stands for the same recovered home blocks; after all of them the log is empty |
| RedoLog.WholeCommit | kernel/log.c:193-203 | a commit that is not interrupted leaves an empty log and exactly the effect of its transaction |
| RedoLog.RunsAreAtomic | kernel/log.c:68-203 | over every sequence of commits and crashes, with crashes inside commits and inside repeated recoveries, the home blocks equal the result of applying, in order, just the transactions whose header write was reached |
| RedoLog.CommitPoint | kernel/log.c:102-114 | writing the header over filled log slots is the one step that changes what the disk stands for |
| RedoLog.InstallStep | kernel/log.c:68-83 | writing the home of a logged block, with anything at all, changes nothing that recovery would produce |
| RedoLog.EraseHeader | kernel/log.c:193-203 | clearing the header after the slots are installed changes nothing that the disk stands for |
| RedoLog.HeaderWritten | kernel/log.c:86-114 | the header that write_head writes is read back by read_head as the same list |
| Journal.FsLog.LogWrite | kernel/log.c:214-235 | both panics exactly when their tests hold; otherwise the block is listed once and pinned beside its holder, the buffer keeps its block and its bytes, and neither the disk nor the logical contents change |
| Journal.FsLog.Read | kernel/bio.c:91-103 | an operation reads a block that nobody holds: a held buffer with its latest contents, every listed block still pinned, and no listed or held block changed; fails if and only if the block has no buffer and every buffer is referenced |
| Journal.FsLog.Change | kernel/fs.c:497-506 | its holder changes a home block; no other block, the disk and the pins stay |
| Journal.FsLog.Release | kernel/fs.c:500-506 | a release of any held block, changed or not, keeps every listed block pinned; all changes stay safe if and only if this one is listed or is none; an unlisted change can be lost if and only if this was the last reference |
| Journal.FsLog.Run | kernel/log.c:214-235 | over every run of reads, changes, log_writes and releases by any operations, unlisted changes released among them, every listed block stays pinned and the states make a Trace; it stops early if and only if an act finds no buffer or no room in the log |
| Journal.ListedStays | kernel/log.c:205-235 | over every such run, from its listing on a block shows the last contents given to it |
| Journal.HeldStays | kernel/bio.c:58-137 | so does a block for as long as it is held |
| Journal.LastOrDisk | kernel/fs.c:500-503 | any block, listed or not, shows the last contents given to it or what the disk has |
| Journal.TidyRun | kernel/log.c:193-203 | a run that releases no unlisted change loses nothing: once committed, the home blocks are what its acts make of them |
| Journal.FsLog.Crowded | kernel/bio.c:76-89 | if no buffer can be had, the blocks listed, held and otherwise referenced are at least NBUF |
| Journal.FsLog.RunAndCommit | kernel/log.c:127-203 | any such run and its commit, stopped anywhere: the disk stands for the blocks as they were, or with every listed block as the whole run left it; it gets to the end unless an act is stuck or NBUF blocks are referenced |
| Journal.FsLog.WriteLog | kernel/log.c:178-191 | the device sees exactly the slot writes of the redo log; all of them if and only if a buffer can be had or every slot has one |
| Journal.FsLog.WriteHead | kernel/log.c:102-114 | one device write, of the header holding the list, if and only if a buffer can be had for it |
| Journal.FsLog.ReadHead | kernel/log.c:86-97 | the list in memory is the list on disk, if and only if a buffer can be had for it |
| Journal.FsLog.InstallTrans | kernel/log.c:68-83 | the device sees exactly the home writes, all of them if a buffer can be had (two when recovering); each block is unpinned unless recovering |
| Journal.FsLog.Commit | kernel/log.c:193-203 | with any unlisted changes in the cache: the code makes exactly the writes of RedoLog.CommitWrites, stands for the right contents at every stop, and gets to the end if and only if nothing is listed, a buffer can be had, or the log blocks to be written have theirs; then the log is empty, every pin dropped, listed and log blocks are the same in cache and on disk, and any other block shows what it did or what the disk has |
| Journal.FsLog.Recover | kernel/log.c:116-123 | the code makes exactly the writes of RedoLog.RecoveryWrites and ends with the recovered home blocks and an empty log; it gets to the end whenever two buffers can be had, and so always from a cache without references |
| LogAdmission.StepInv | kernel/log.c:127-175 | every begin, write, end and commit step, of any process, keeps: the commit flag is set just when one process is committing, and then nothing is outstanding; nobody sleeps whom begin_op would now let in; no block listed twice; reserved room |
| LogAdmission.SleeperHasWaker | kernel/log.c:127-175 | whoever sleeps in begin_op, some process that is active or committing is still to call wakeup |
| LogAdmission.SleepsForCause | kernel/log.c:127-175 | over every run, whatever the operations log: whoever sleeps in begin_op would not be let in now, since a commit is running or the log lacks room for one more operation, and some process is still to call wakeup |
| LogAdmission.RunInv | kernel/log.c:127-235 | the same over every run of every interleaving, with no panic, when each operation logs fewer than MAXOPBLOCKS blocks |
| LogAdmission.Overflow | kernel/log.c:214-235 | a concrete run that reaches a log_write panic when operations may log MAXOPBLOCKS blocks: three such operations do not fit in the 29 slots that mkfs leaves |
| LogAdmission.SafeBudget | mkfs/mkfs.c:22-26 | the panics are unreachable if and only if the budget per operation is below MAXOPBLOCKS |
| BufferCache.Bcache.constructor | kernel/bio.c:36-53 | all buffers in one ring, none referenced, contents equal to the disk |
| BufferCache.Bcache.Find | kernel/bio.c:58-75 | finds the buffer of a block exactly if the block is cached |
| BufferCache.Bcache.FindUnused | kernel/bio.c:76-89 | finds the least recently released buffer that nobody references, or none if all are referenced |
| BufferCache.Bcache.Bget | kernel/bio.c:58-89 | a referenced buffer for the block, its own or the least recently released one; taking a buffer loses a change if and only if it held the last copy of an unwritten one |
| BufferCache.Bcache.LockBuf | kernel/bio.c:93-103 | once the lock is free: the buffer is held and shows the latest contents of its block |
| BufferCache.Bcache.Bread | kernel/bio.c:91-103 | for a block that nobody holds, a held buffer with its latest contents, changing no other buffer and no block that is referenced; fails exactly if the block is not cached and every buffer is referenced |
| BufferCache.Bcache.Bwrite | kernel/bio.c:105-112 | one device write, of the logical contents |
| BufferCache.Bcache.Brelse | kernel/bio.c:114-137 | drops one reference and moves the buffer to the front of the ring just when it was the last; the block is left loose if and only if that was the last reference to a change that is not on disk |
| BufferCache.Bcache.Bpin | kernel/bio.c:139-144 | one more reference to that block and to no other |
| BufferCache.Bcache.Bunpin | kernel/bio.c:146-151 | one reference fewer to that block and to no other |
| BufferCache.NoDuplicates | kernel/bio.c:58-89 | no two buffers hold the same block |
| BufferCache.UnlinkRing | kernel/bio.c:126-131 | the pointer surgery of brelse removes one buffer from the ring and keeps the order of the rest |
| BufferCache.PushFrontRing | kernel/bio.c:128-132 | and puts it at the front |
| BufferCache.RecycleCoherent | kernel/bio.c:76-89 | giving an unreferenced buffer to another block changes what a block shows if and only if the buffer held an unwritten change |
| BufferCache.LoseChange | kernel/fs.c:500-503 | one such loss: a holder changes a block, releases it without log_write, and the next bget brings back the old contents |
| BufferCache.LoseFirst | kernel/fs.c:500-503 | such a cache built from the start: NBUF blocks read, the first changed and released, and its change is gone |
| BufferCache.UpdateCoherent | kernel/fs.c:48-59 | a change through a held buffer is a change of the logical contents of its block |
| FsLayout.PutBitOfBits | kernel/fs.c:73-97 | setting or clearing one bit of a byte changes that bit and no other |
| FsLayout.Marked | kernel/fs.c:73-97 | marking a block changes its bit in the bitmap and no other, over all bitmap blocks |
| FsLayout.DataWrite | kernel/fs.c:497-506 | writing a data block of one file changes that block of that file; no other block of any file, no address and no bit of the bitmap |
| FsLayout.Claimed | kernel/fs.c:383-402 | storing the address of a zeroed free block at an empty place keeps addresses and owners in one-to-one correspondence and changes the contents of no file |
| FsLayout.DropDirect | kernel/fs.c:416-421 | clearing a direct address gives up exactly that block |
| FsLayout.DropIndirect | kernel/fs.c:423-433 | clearing the indirect address gives up exactly that block and all it lists |
| FileSystem.Fs.Balloc | kernel/fs.c:63-86 | takes the lowest free block, zeroed and marked; fails if and only if every block is in use or no operation is outstanding |
| FileSystem.FullCount | kernel/fs.c:63-86 | the disk is full if and only if the blocks owned are as many as the file blocks |
| FileSystem.Fs.Bfree | kernel/fs.c:88-103 | clears one bit; the panic on freeing a free block exactly when it was clear |
| FileSystem.OwnedIsUsed | kernel/fs.c:88-103 | a block that an inode owns is marked in use, so that panic is unreachable from truncation |
| FileSystem.FreeIsUnowned | kernel/fs.c:63-86 | a block shown free is a data block that no inode owns |
| FileSystem.GrownKeeps | kernel/fs.c:377-405 | giving an inode a new block keeps the bitmap equal to metadata plus owned blocks and changes the contents of no file |
| FileSystem.Fs.Bmap | kernel/fs.c:375-405 | the address of block n of a file, allocated only if it was missing (with the indirect block if need be), if and only if there are blocks for that and an operation is outstanding; no file changes, no address moves, the blocks logged are exactly listed, and it is said whether the inode itself changes |
| FileSystem.Fs.Itrunc | kernel/fs.c:407-437 | frees exactly the direct, indirect and listed blocks of the inode, empties it and writes it back; every other file and all data blocks are as they were |
| FileIo.Readi | kernel/fs.c:451-477 | returns exactly the requested slice, cut at the end of the file, or a fault; panics if and only if the blocks it reaches that are missing are more than the disk has left, or any are missing and no operation is outstanding; leaves the disk in order if and only if it puts no address into the inode; changes nothing when every block below the size is allocated |
| FileIo.LeakIff | kernel/fs.c:375-405 | once the inode in memory has an address that the one on disk lacks, the disk has a block in use that no inode on it has, and no assignment of owners mends it |
| FileIo.Writei | kernel/fs.c:479-517 | the contents become c[..off] + src + c[off+n..]; refused writes change and log nothing; on a fault the count is the last block boundary at or below it, as a function of the arguments; every changed block is logged if and only if Covered holds of the disk before the call; other files unchanged; density kept; bounds on the blocks logged |
| FileIo.TornShows | kernel/fs.c:500-503 | the bytes a fault leaves in the cached block past the count are invisible if and only if the file ended there or already held them |
| FileIo.TornNever | kernel/fs.c:497-506 | for a size, an offset, a length and a fault: the count tells all, whatever the bytes, if and only if there is no fault, or it is at the first byte or a block boundary, or the file has no bytes in that block |
| FileIo.TornOnce | kernel/fs.c:500-503 | 1024 ones over 1024 zeros with a fault after 512: nothing is counted, the file begins with ones, and its block is logged only if it was before |
| FileIo.TornLogged | kernel/fs.c:497-512 | the blocks changed are all logged if and only if no byte was copied past the last whole block, or the block of the fault was new, logged already, or held those bytes already |
| FileIo.LeavesCounted | kernel/fs.c:497-517 | what a write leaves on disk, with the unlogged block as it was: a file system in order whose file has exactly the bytes counted |
| FileIo.ReadBack | kernel/fs.c:451-517 | reading what was written gives it back |
| FileIo.WriteChunk | kernel/fs.c:497-506 | one round of the loop: the bytes land at their place in the file and what is logged is exactly listed |
| FileIo.ChunkFits | kernel/file.c:160-166 | a chunk of filewrite touches few enough blocks: at most MAXOPBLOCKS, and at most 7 with one bitmap block |
| FileIo.PaidStep | kernel/file.c:160-166 | the running count behind that bound: data blocks, bitmap blocks and the one indirect block, each counted once |
| FileIo.FileWrite | kernel/file.c:159-186 | the chunks together have the effect of one write of all bytes; returns n exactly if that write would succeed; on a fault or at the largest file the prefix written and the offset, as functions of the arguments; each transaction within its log budget; the disks its transactions leave form a Trail, also if the kernel panics, and the last of them is the final disk if the write succeeds |
| FileCrash.CrashDuringWrite | kernel/file.c:159-186 | a crash anywhere in any transaction of a write, and in any number of recoveries after it, leaves a disk that is a file system in order (addresses, owners, bitmap) with some first part of the write in the file and every other file as it was |
| FileCrash.TxnTakes | kernel/file.c:173-178 | the transaction of one chunk, applied to the bytes on disk, gives the bytes of the disk after it |
| FileCrash.ReadsInOrder | kernel/fs.c:222-237 | a file system in order, put into blocks and read back, is in order with the same files |
| FileCrash.ImprintReads | kernel/fs.c:222-237 | each inode packed into its block by iupdate is read back as it was |
| FileJournal.CommitTxn | kernel/file.c:173-178 | a transaction of a write through the cache and the log, block by block, with any unlisted changes beside it: the disk stands for the blocks as they were or with the whole transaction, nothing of the unlisted changes, and it gets to the end unless NBUF blocks are referenced |
| FileJournal.WriteThrough | kernel/file.c:159-186 | the transactions of a FileWrite, each carried out so in turn, leave home blocks that are those of the last disk of its Trail |
| FileJournal.ActsLeave | kernel/fs.c:497-512 | however such a run goes, each listed block ends with the contents the transaction gives it |
| Mkfs.Layout | mkfs/mkfs.c:22-28 | the layout is consistent: log, inode blocks, bitmap and data do not overlap, and one bitmap block covers the disk |
| Mkfs.Image.IAppend | mkfs/mkfs.c:252-294 | appends the bytes to one file, changes no other, hands out blocks in order, and keeps every file with exactly the blocks its size calls for; succeeds if and only if the file and the disk have room for them |
| Mkfs.Image.AddFile | mkfs/mkfs.c:130-161 | a directory entry in the root and a file with the given bytes; all earlier files unchanged; succeeds if and only if the root, the file and the disk have room |
| Mkfs.Image.WriteBitmap | mkfs/mkfs.c:234-248 | the bitmap marks exactly the metadata and the owned blocks |
| Mkfs.Image.Finish | mkfs/mkfs.c:163-170 | rounding the size of the root leaves all its blocks allocated if and only if the size was not a whole number of blocks |
| Mkfs.RoundedDense | mkfs/mkfs.c:163-168 | the reason: the block added to the size was never allocated exactly when the size was whole |
| Mkfs.Make | mkfs/mkfs.c:108-173 | succeeds if and only if each file is within the largest size and all fit on the disk; the image then satisfies the invariants of the kernel file system, and unless two names are the same once cut, each name leads in the root directory to an inode that holds that file, and both dots lead to the root; the root is a directory in order if and only if the cut names differ, and has every block below its size if and only if its entries do not fill whole blocks |
| Mkfs.RootHole | mkfs/mkfs.c:163-168 | 62 empty files make such an image, whatever their names: a root of two blocks, the second never allocated, on a disk with one file block in use |
| Mkfs.ReadRootHole | kernel/file.c:131-136 | reading the 65th entry of that root panics if and only if no operation is outstanding, though the disk is not full; and otherwise leaves on disk a block in use that no inode has |
| Mkfs.RootInOrder | mkfs/mkfs.c:130-161 | the rows that mkfs appends are a directory with unique names if and only if the cut names differ, and it then maps exactly those names |
| Mkfs.Mount | kernel/fs.c:40-47 | the file system that starts on such an image is valid |
| Directory.StrNCmp | kernel/string.c:60-68 | zero exactly when the two buffers hold the same name, cut to n bytes |
| Directory.StrNCpy | kernel/string.c:70-81 | the name cut to the field and padded with NULs |
| Directory.EntryRound | kernel/fs.h:56-59 | an entry read back gives its name and its number modulo 2^16 |
| Directory.Linked | kernel/fs.c:569-580 | putting a new name in a dead or new entry adds it to the map that the directory stands for and changes no other lookup |
| Directory.Unlinked | kernel/sysfile.c:219-221 | zeroing the entry of a name removes that name and no other |
| Directory.UniqueFirst | kernel/fs.c:529-553 | with names unique, the entry lookup finds is the one the map holds |
| Paths.DirLookup | kernel/fs.c:529-553 | finds a name exactly if the map has it, with its number and the offset of its entry; reads the same afterwards, also where a block is missing below the size |
| Paths.DirLink | kernel/fs.c:555-583 | fails with no change if the name is there; otherwise adds it, in the first dead entry or at the end, keeping names unique and every other file as it was |
| Paths.Unlink | kernel/sysfile.c:204-221 | removes the name from the map unless it is absent, a dot name, or a directory that is not empty; every other file reads as it did |
| Paths.IsDirEmpty | kernel/sysfile.c:169-183 | true exactly if no entry after the first two is in use |
| Paths.BareMap | kernel/sysfile.c:169-183 | in a directory that begins with its two dots, that is so if and only if it maps nothing else |
| Paths.SkipElem | kernel/fs.c:587-622 | takes the first piece of the path split at slashes, cut to DIRSIZ, and leaves the rest |
| Paths.PiecesIff | kernel/fs.c:587-622 | any path is elements with slashes about them, at least one between two, and its pieces are exactly those elements, each cut to DIRSIZ |
| Paths.Namex | kernel/fs.c:624-661 | equals walking the maps of the directories along the pieces of the path, to the last or to its parent; changes no file, and nothing at all when no block is missing |
| Paths.WalkIff | kernel/fs.c:638-655 | a path leads to an inode if and only if there is a trail of directories to it, each with the next name |
| Paths.WalkTwice | kernel/fs.c:638-655 | walking a path is walking a first part and then the rest |
| Paths.ParentIs | kernel/fs.c:644-648 | the parent of a path is where the path without its last piece leads, if that is a directory |
| PageTable.WordRound | kernel/riscv.h:341-352 | an entry packed into a word by PA2PTE and the flag bits gives back its frame and its flags |
| PageTable.HardwareFinds | kernel/vm.c:69-98 | translation on the machine words of the tables, by the 9-bit fields of the address, faults exactly where the map has no page, and elsewhere finds the frame, the offset and the flags of the map |
| PageTable.SlotsDistinct | kernel/vm.c:80-98 | distinct pages below MAXVA, of one or of two address spaces, have distinct leaf slots |
| PageTable.LeafMaps | kernel/vm.c:151-153 | changing the leaf entry of a page changes the map at that page and nowhere else, in any address space |
| PageTable.HangMaps | kernel/vm.c:90-95 | hanging a blank table under an entry changes no map |
| PageTable.DropMaps | kernel/vm.c:273-277 | removing a blank table changes no map |
| VirtualMemory.Vm.constructor | kernel/kalloc.c:33-40 | every frame of the pool is on the free list |
| VirtualMemory.Vm.Kfree | kernel/kalloc.c:42-63 | puts the frame at the head of the list; the panic exactly outside the pool |
| VirtualMemory.Vm.Kalloc | kernel/kalloc.c:65-82 | takes the head of the list, or fails exactly if the list is empty; no table changes |
| VirtualMemory.ListPush | kernel/kalloc.c:57-62 | the list threads exactly the free frames, each once, after a push |
| VirtualMemory.ListPop | kernel/kalloc.c:73-77 | and after a pop |
| VirtualMemory.Vm.Walk | kernel/vm.c:80-98 | finds the level-0 table of a page; made on demand from free frames, with no map and no page of bytes changed; fails only when memory runs out |
| VirtualMemory.Vm.MapOne | kernel/vm.c:149-153 | adds exactly one mapping or changes no map; panics exactly on a mapped page or an address past MAXVA |
| VirtualMemory.Vm.MapPages | kernel/vm.c:133-160 | maps the pages of a range to successive frames, stopping at the first that fails with the earlier ones mapped; every other page is as it was |
| VirtualMemory.SpotHolds | kernel/vm.c:151-153 | a frame of user memory is mapped at the one page its tables place it at |
| FrameBudget.TablesTaken | kernel/vm.c:80-98 | the frames that leave the free list are as many as the tables that were missing on the way to the page |
| UserMemory.UvmUnmap | kernel/vm.c:162-188 | removes exactly the mappings of the range and frees exactly their frames; panics exactly if a page of the range has no level-0 table |
| UserMemory.UvmDealloc | kernel/vm.c:247-263 | the same for the pages between two sizes |
| UserMemory.UvmAlloc | kernel/vm.c:219-245 | maps pages of zeros up to the new size, on frames that were free, for user code to read, write and run; fails if and only if the free list lacks a frame for a page or for a table missing on the way, and panics if and only if memory lasts until a page that is mapped already or past MAXVA; on failure every map and every frame in use is as it was and all data frames are back |
| UserMemory.Undone | kernel/vm.c:232-242 | unmapping what was filled restores every map and returns every frame but those of page tables |
| UserMemory.FillOne | kernel/vm.c:232-243 | a new frame with the wanted bytes mapped at a page, if and only if there are frames for it and for the missing tables; otherwise nothing changed but page tables |
| AddressSpace.UvmCreate | kernel/vm.c:190-201 | a new address space that maps nothing, exactly if a frame is free; every other map is as it was |
| AddressSpace.UvmCopy | kernel/vm.c:295-330 | the child maps a page just when its parent does, with equal bytes and flags, on a frame that was free, and the parent is as it was; out of memory, the child is as it was; whether it ends, fails or panics is fixed by the tables of both spaces and the number of free frames (Ends) |
| AddressSpace.StopsOnce | kernel/vm.c:304-322 | there is at most one page at which a copy can stop, and none if it gets to the end, so Ends names one outcome |
| CopyFailure.GapPanics | kernel/vm.c:327-330 | a parent with a table but no page in its first region, copied with no free frame: the rollback of uvmcopy panics in uvmunmap |
| CopyFailure.CopyPanics | kernel/vm.c:295-330 | such a parent and child are built from an empty pool by the kernel's own calls, and the copy panics |
| AddressSpace.Freewalk | kernel/vm.c:265-283 | panics if and only if there is a leaf at or below the table, with every map as it was; otherwise frees the table and every table below it, each once, and no other frame |
| AddressSpace.UvmFree | kernel/vm.c:285-293 | every user frame and every table of the space is free, nothing else changes; panics if and only if a page below the size has no table or a page above it is mapped |
| AddressSpace.VacantIsBare | kernel/vm.c:265-283 | with no page mapped there is no leaf |
| AddressSpace.BareIsVacant | kernel/vm.c:265-283 | and with no leaf no page is mapped |
| AddressSpace.Walkaddr | kernel/vm.c:100-121 | the frame of a page that is mapped and for user code, by its V and U bits alone, and 0 for any other page |
| UserCopy.FrameAccounted | kernel/vm.c:80-330 | each frame of the pool is on the free list once, or a table under its one entry, or user memory at its one page, or with the kernel |
| UserCopy.CopyIn | kernel/vm.c:370-393 | succeeds if and only if every address of the range is below MAXVA in a page that is mapped with V and U, and then returns the bytes of their frames, across pages |
| UserCopy.CopyOut | kernel/vm.c:345-368 | succeeds if and only if every address of the range is below MAXVA in a page that is mapped with V and U; changes exactly those bytes, over all address spaces, and no frame that is not under the range; on failure the prefix up to the first bad page |
| UserCopy.CopyRound | kernel/vm.c:345-393 | copying in after copying out gives the same bytes |
| UserCopy.FrameUnique | kernel/vm.c:345-393 | a frame that a page owns is reached from no other page of any space |
| SleepLock.StepInv | kernel/proc.c:457-592 | every step of every process, CPU, scheduler, wakeup and kill keeps the locking invariants |
| SleepLock.RunInv | kernel/proc.c:457-616 | the same over every run |
| SleepLock.MutualExclusion | kernel/sleeplock.c:21-52 | over every run at most one process owns the sleep-lock, and holdingsleep is true of it and of no other |
| SleepLock.NoLostWakeup | kernel/sleeplock.c:21-41 | over every run, whoever waits on the lock while it is unlocked has a wakeup coming that has not got past it, and nobody sleeps on it once that wakeup is over |
| SleepLock.TakenBySomeone | kernel/sleeplock.c:21-41 | over every run the lock is taken if and only if some process has it, and whoever goes to sleep on it does so beside another that has it |
| SleepLock.OneCpuEach | kernel/proc.c:456-515 | over every run no process is on two CPUs |
| SleepLock.SchedulerTurn | kernel/proc.c:456-490 | over every run, a turn of the scheduler runs a process whose lock is free if and only if it is RUNNABLE, from where it left off, and otherwise changes nothing; kill makes a sleeper RUNNABLE |
| SleepLock.SpinsForOthers | kernel/sleeplock.c:21-41 | over every run, a process on a CPU goes on if and only if the lock it wants is free, and a lock it spins for is held by somebody else |
| ProcTree.StepInv | kernel/proc.c:272-447 | every step of fork, exit, reparent, wait and kill keeps the process-tree invariants |
| ProcTree.RunInv | kernel/proc.c:272-447 | the same over every run |
| ProcTree.ParentsAlive | kernel/proc.c:331-398 | over every run no parent is a zombie or unused |
| ProcTree.NoSleepingBesideZombie | kernel/proc.c:346-447 | over every run, with wait_lock free, no parent sleeps in wait beside a zombie child |
| ProcTree.WaitEnds | kernel/proc.c:411-446 | over every run: with the table scanned, wait returns -1 if and only if the process has no child or was killed, and else goes to sleep with no exited child; before that it returns just at an exited child, the first there is, with that child freed and its pid and status given, or with -1 and nothing changed if the status cannot be copied out |
| ProcTree.SleeperHasChild | kernel/proc.c:438-445 | over every run, whoever sleeps in wait, or is about to, has a child |
| ProcTree.ParentMoves | kernel/proc.c:317-340 | a process gets a parent by its fork, is handed to init by its exiting parent, and loses its parent by being reaped: no other step changes it |
| ProcTree.StopsForOthers | kernel/proc.c:272-447 | over every run, a process in the middle of fork, exit or wait goes on unless it is asleep, wants wait_lock while another has it, or wants to look at another that holds its own lock |
| ProcTree.ReapedOnce | kernel/proc.c:402-447 | over every run each exited process is still a zombie with its own status, or has been reaped with it, not both, and no process is reaped twice |
| ProcTree.ExitStatus | kernel/proc.c:346-398 | over every run, the status recorded for a process is the one it called exit with |
| ProcTree.KilledIff | kernel/proc.c:597-616 | over every run, a slot is marked killed if and only if kill has struck it since it was last freed, and a killed process sleeps in wait if and only if the kill came between the test in wait and the lock in sleep |
| ProcTree.LateKill | kernel/proc.c:439-445 | one such kill: init sleeps in wait although it is killed |
| Pipe.Wrapped | kernel/pipe.c:83-113 | comparing and indexing by the 32-bit counters agrees with unbounded counters as the counters wrap |
| Pipe.Pipe.Write | kernel/pipe.c:76-103 | appends the bytes up to where the write stops, which is fixed by the bytes, the room, the readable part of the buffer, the open end and the kills; every return value; sleeps only when full, having woken the readers; a reader is left asleep beside bytes if and only if one slept, the pipe was open and the writer was killed after its first byte |
| Pipe.DiesMidway | kernel/pipe.c:83-100 | a write returns -1 with bytes inserted if and only if the pipe is open and the first kill is seen midway |
| Pipe.KilledWriter | kernel/pipe.c:83-88 | reader 1 asleep, a writer of two bytes killed after the first: the reader still sleeps, beside a byte |
| Pipe.Pipe.Read | kernel/pipe.c:105-130 | returns the next bytes in order, as many as there are and fit; sleeps exactly when empty with a writer; wakes the writers |
| Pipe.Pipe.KillSleeper | kernel/proc.c:597-616 | a killed sleeper leaves the readers and writers without a wakeup, and leaves nobody else asleep beside bytes |
| Pipe.Pipe.Close | kernel/pipe.c:58-74 | closes one end and wakes the sleepers of the other; the page is freed exactly with the second end |
| Virtio.Disk.AllocDesc | kernel/virtio_disk.c:143-154 | the first free descriptor, or none |
| Virtio.Disk.FreeDesc | kernel/virtio_disk.c:156-170 | the descriptor is free again and cleared, and waiters are woken |
| Virtio.Disk.FreeChain | kernel/virtio_disk.c:172-187 | the three descriptors of a chain are free and no other |
| Virtio.Disk.Alloc3 | kernel/virtio_disk.c:189-202 | three descriptors exactly if three are free; otherwise no change |
| Virtio.Disk.Submit | kernel/virtio_disk.c:203-271 | exactly if three descriptors are free, a request with a well-formed chain apart from all others, queued in the ring; otherwise the caller waits and nothing is submitted; the device may work meanwhile |
| Virtio.Disk.Publish | kernel/virtio_disk.c:254-266 | the entry goes into a slot the device is done with; whatever the device does between that and the move of the index, it does not see the entry; then it does |
| Virtio.Disk.BumpIndex | kernel/virtio_disk.c:264-265 | the move of the index, over an entry that is already written, is what queues the request |
| Virtio.Disk.FewInFlight | kernel/virtio_disk.c:254-266 | with three of the NUM descriptors each, at most two requests are in flight, so an entry of the ring is never written over before the device has taken it |
| Virtio.Disk.DeviceTake | kernel/virtio_disk.c:254-266 | the device takes the oldest entry not yet taken, which is the request that was queued, and its chain means to the device the one block and the direction that the driver was asked for |
| Virtio.DeviceSees | kernel/virtio_disk.c:218-250 | a chain followed and read as a block device does is the transfer of one block, at its byte offset, to or from its buffer |
| Virtio.Disk.DeviceComplete | kernel/virtio_disk.c:282-315 | the device reports any request it has taken, in any order and with any status, as one more completion to acknowledge |
| Virtio.Disk.Interrupt | kernel/virtio_disk.c:282-315 | with the device taking and completing requests before every turn of the loop: acknowledges the completions in the order reported, each once, also those reported meanwhile, wakes exactly their buffers and leaves none; panics if and only if the next completion has a status other than 0; the loop ends |
| Virtio.Disk.Finish | kernel/virtio_disk.c:267-276 | the waiter of a completed request frees its chain; the panics of free_desc are unreachable |
| Virtio.WrapCompare | kernel/virtio_disk.c:297-310 | comparing the 16-bit indices tells whether completions are left as they wrap |
| Malloc.InsertKeepsFreeList | user/umalloc.c:24-44 | inserting and coalescing keeps the list address-ordered, disjoint and with no two blocks touching, and covers exactly one block more |
| Malloc.TakeKeepsFreeList | user/umalloc.c:73-82 | taking a block, whole or its end, keeps the list and covers exactly that block less |
| Malloc.InsertUndoesTake | user/umalloc.c:24-90 | freeing what was just allocated gives back the same list |
| Malloc.Allocator.Free | user/umalloc.c:24-44 | the real pointer surgery equals the insertion, and the walk ends |
| Malloc.Allocator.MoreCore | user/umalloc.c:46-61 | the new core joins the list, or nothing changes when sbrk fails |
| Malloc.Allocator.Malloc | user/umalloc.c:63-90 | a block of the right size apart from every live block; fails only if no block fits and sbrk refuses; free and live blocks partition the core; the search ends |
| Malloc.FreePartition | user/umalloc.c:24-44 | free and live units still partition the core after a free |
| Malloc.TakePartition | user/umalloc.c:63-90 | and after an allocation |
| Malloc.MorePartition | user/umalloc.c:46-61 | and after the core grows |
| Malloc.CoreRequestIntact | user/umalloc.c:46-57 | the byte count passed to sbrk is not mangled by the conversion to int if and only if the request is at most 0x7FFFFFE0 bytes |
| Grep.Match | user/grep.c:70-80 | true exactly if some part of the text, anchored as the pattern says, is in the language of the pattern |
| Grep.MatchHere | user/grep.c:82-94 | true exactly if the language of the pattern matches at the start of the text |
| Grep.MatchStar | user/grep.c:96-104 | true exactly if some run of the starred character can be followed by the rest |
| Grep.UnfoldStar | user/grep.c:96-104 | the language of a starred item is a run of it and then the rest |
| Grep.UnfoldOne | user/grep.c:91-93 | the language of a plain item is one character and then the rest |
| Grep.GrepInput | user/grep.c:10-34 | what is printed depends only on the input read, however read splits it |
| Grep.PrintLines | user/grep.c:18-27 | prints the matching lines that end in the buffer and leaves a part with no line end, with the output owed for what is left unchanged |
| Grep.InputIsLines | user/grep.c:18-27 | every input is its lines, each ended by a newline, and a tail without one |
| Grep.LinesOf | user/grep.c:18-27 | there is no other way to cut it |
| Grep.PrintsReadableLines | user/grep.c:10-34 | for every pattern and input, the output is the matching lines among those before the first line too long for the buffer |
| Grep.CompleteIff | user/grep.c:10-34 | for every pattern and input, all matching lines are printed if and only if no line from the first one too long for the buffer on matches |
| Grep.LongLineLost | user/grep.c:15-33 | a first line of 1023 bytes and the short line after it both match, and neither is printed |
| Shell.LexRender | user/sh.c:265-308 | tokens set apart by blanks are read back as they were |
| ShellGrammar.LexIff | user/sh.c:265-308 | a text is read as certain tokens if and only if it is those tokens with blanks about them, none needed except where two would be read as one |
| Shell.ParseInvertsShow | user/sh.c:327-447 | for every command with at most MAXARGS-1 words, printing it with parentheses where needed and parsing that gives it back |
| Shell.ShowIsFaithful | user/sh.c:327-447 | every command the parser builds is printable, so that printing and parsing again gives the same result |
| ShellGrammar.ParsesIff | user/sh.c:344-447 | the parser accepts tokens with a command if and only if a grammar of lines, given without the parser, derives them with it |
| ShellGrammar.RefusesIff | user/sh.c:344-447 | it refuses tokens with an error if and only if the grammar has that reason to: a bad simple command, a parenthesis not closed, a redirection without a file, or tokens left over |
| ShellGrammar.SimpleCases | user/sh.c:415-447 | a simple command on any tokens: words and redirections in any order, redirections first among them, make one command of all the words under all the redirections, in order; or which error |
| ShellCode.GetToken | user/sh.c:265-308 | the next token of the text at the cursor, its kind and its extent, and the cursor after it |
| ShellCode.Peek | user/sh.c:310-321 | skips blanks and looks at the first character of the next token |
| ShellCode.ParseLine | user/sh.c:344-360 | the grammar of lines on the tokens at the cursor, and its panics; it ends on every input |
| ShellCode.ParsePipe | user/sh.c:361-373 | the grammar of pipelines |
| ShellCode.ParseRedirs | user/sh.c:374-398 | the grammar of redirections |
| ShellCode.ParseBlock | user/sh.c:399-414 | the grammar of blocks |
| ShellCode.ParseExec | user/sh.c:415-447 | the grammar of simple commands |
| ShellCode.NulTerminate | user/sh.c:448-493 | ends every word of the tree with a NUL and breaks no word |
| ShellCode.EndedReads | user/sh.c:448-493 | then every argument and file name read as a C string is the text of its token |
| ShellCode.ParseCmd | user/sh.c:327-343 | the tree, read as C strings in the changed buffer, is a command that the grammar gives to the original line; or the panic is one that the grammar refuses the line with, and the buffer is unchanged |

## Left out

- mmap, munmap and the page-fault path: a whole-region unmap acts on the last slot of the table in this code, so its natural properties do not hold.
- copyinstr, uvminit, uvmclear, kvmmap and exec: would only add easy members beside the page-table results.
- Inode reference counts (iget, idup, ilock, iput, ialloc) and link counts: Namex keeps inode numbers only.
- The bytes of the super block: the layout is a value. Inodes are typed records in memory, and FileCrash packs them into their blocks as iupdate does.
- Running commands (runcmd), reading a line (getcmd) and printing: the shell model ends with the parsed command.
- Device registers, boot, interrupts other than the disk's, printf, exec's file format, console and system-call argument fetching.
- Weak memory: steps under a lock are atomic and memory is sequentially consistent.
- Interleaving between the transactions of one FileWrite, and between operations on the file layer: each operation of the file layer runs under its inode lock here.
- FileSystem.Fs.Balloc: running out of blocks is an outcome (the kernel's panic) after which nothing more is promised than that every block is in use.
- FileIo.Readi: that a directory lookup (Paths.Namex) is such a read, and may leave the disk out of order in the same way, is not stated again there.
- FileIo.Writei: the 32-bit test off + n < off is folded into the one bound on the file size, which it implies.
- FileJournal.CommitTxn: the blocks of a transaction are read, changed, listed and released one after the other, each once; the order in which writei, bmap and balloc come to them, and come back to them, is not modelled.
- FileCrash.CrashDuringWrite: one write at a time, each of its transactions committed before the next begins; a file with a missing block below its size is not covered.
- Paths.Unlink: the link counts of the two inodes, and the panic on a link count below 1, are not modelled; which inodes are directories is a parameter.
- Mkfs.Make: takes at most NINODES - 2 files, where mkfs itself does not test the inode count; takes names as they go into the entries, after user/ and a leading underscore are stripped.
- Mkfs.Mount: reading the super block's bytes and the recovery of an empty log are not part of it; Journal.FsLog.Recover is that recovery.
- BufferCache.Bcache.Bread: the wait for a buffer that somebody holds is the gap between Bget and LockBuf, and Bread is the two in one when there is no wait; "no buffers" is a result of -1 here.
- Journal.FsLog.Commit: running out of buffers in the middle is a result here, with the exact writes made so far; buffers held by others stay held, and others take no steps, while it runs.
- Journal.FsLog.Change: operations do not change the blocks of the log itself, which log.c alone writes.
- Journal.FsLog.Recover: with one unreferenced buffer or none it may or may not get to the end; which, is not stated.
- UserMemory.UvmAlloc: takes an old size of at most MAXVA, as every process has.
- ProcTree.StepInv: wakeup's scan of the table is one step, and the locks of other processes taken inside it are not separate steps.
- Malloc.Allocator.Malloc: takes requests whose byte count survives the conversion to int; CoreRequestIntact says exactly which those are. sbrk's answer is a parameter.
- ShellCode.ParseExec: the words of a simple command are put into its node as a value, by Fill, and not through an aliased pointer; open flags are named by their operator.
- PageTable.HardwareFinds: entries are words whose frame number is not cut to 44 bits; accessed and dirty bits, and the checks on permissions that follow translation, are not part of it.
- VirtualMemory.Vm.MapPages: entries hold the flags V, R, W, X and U; other bits, and wrap-around of va + size past 2^64, are not modelled. The walk panic past MAXVA is the precondition of Walk and an outcome of its callers.
- VirtualMemory.Vm.Kfree: addresses are frame numbers, so the alignment test is not modelled.
- UserCopy.CopyOut: takes ranges whose mapped pages own their frames, as user memory does; a frame mapped at two pages would show the bytes at both.
- AddressSpace.UvmFree: takes spaces whose tables lie below MAXVA, where walk makes them.
