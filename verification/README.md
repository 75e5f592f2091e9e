# xv6 with user accounts: a verified model

Dafny models of the parts of this kernel and its user programs whose correctness is an
argument over many steps, with proofs of what those parts are for. Check everything with
`dafny verify dfyconfig.toml`.

**Storage stack.** `Disk` has blocks, the words in them, and the *flat disk*: what is on the
platter, what the next read of each block returns, and which blocks exist only in pinned
buffers. `BufferCache` is the buffer cache with its doubly linked LRU list; each operation is
proved to be an operation on the flat disk or to leave it alone; `Lru` is what the order of the
list is for. `RedoLog` is the on-disk log
as functions of disks: recovery, commit, and the disks between their single-block writes.
`Log` is the code that runs over the flat disk and produces exactly those writes, and
`CachedLog` the same code run on the buffer cache. `GroupCommit` is the transition system of any
number of file-system calls, disk writes and crashes in any order, also during recovery.
`BlockMap` and `FileSystem` are the bitmap allocator, the block map of an inode and the operations
on file contents, with an owner for every block; every operation is proved to log each block it
changes, and never one of the log. `FileWrite` splits writes into transactions; `Mkfs` builds the first image;
`LargeBitmap` is an image, larger than mkfs makes, in which a write logs more than is reserved
for it.

**Processes.** `SleepWakeup` is the sleep/wakeup protocol for any data, any condition and any
number of processes; `SleepLock`, `PipeSync` and `LogWait`, the waiting in `begin_op`, are
clients of it. `Pipe` is the pipe's ring buffer. `ProcTable` is the process table under `ptable.lock`.

**Memory.** `Paging` has two-level page tables, the flat map they stand for, and an owner for
every physical page; `Vm` has the page allocator and the operations on address spaces.
`Umalloc` is the user-level allocator with its circular free list.

**Text.** `Shell` is the shell's tokenizer, parser and in-place NUL termination; `ShellGrammar` has
the syntax trees that the parser accepts, and `ShellPrint` the text they are read from and a printer
that parsing undoes. `Matcher` is grep's regular
expression matcher. `Passwd` has the record codec and the line file of `/etc/passwd`, and
`Accounts` the operations on accounts. `CStrings` and `Options` are shared definitions.

Some results say that a property the code seems to aim at fails, with an input for which it
does, and exactly when it holds:

- `log_write` tests `log.lh.n` before it takes `log.lock`. Two operations can pass the test
  together. Every log block that commit writes is inside the log area in all interleavings
  exactly when the area has more than LOGSIZE blocks (or only its header), as
  `GroupCommit.LogAreaExact` says, and exactly then a crash after any run recovers to a prefix of
  whole operations (`GroupCommit.RecoveryExact`). `tools/mkfs.c` makes it LOGSIZE blocks long, and
  then there is a run in which commit overwrites the block behind the log (`GroupCommit.BlockLost`),
  and no recovery brings it back (`GroupCommit.LostForGood`). `GroupCommit.RecoveredPrefix` is about
  the runs that stay inside.
- NBUF equals LOGSIZE. A transaction on an idle cache is committed exactly when it has fewer than
  NBUF blocks; with as many as the log holds, every buffer is pinned and `bget` panics
  (`CachedLog.Commit`, `CachedLog.RunTransaction`).
- `filewrite` sizes its chunks so that each logs at most MAXOPBLOCKS blocks. The bound that
  `writei` keeps for every file is within it exactly when the chunk touches fewer than four blocks,
  or lacks fewer than five, or the bitmap has fewer than five blocks (`FileWrite.ChunkFits`); so it is
  for every file with blocks below its offset, for every chunk after the first, and on every image of
  mkfs, whose bitmap is one block (`FileWrite.WriteMounted`). With five bitmap blocks a file whose
  size was raised by `sys_trim` can log MAXOPBLOCKS + 1 (`LargeBitmap.ElevenBlocks`,
  and on a concrete image `LargeBitmap.ReservationExceeded`).
- `writei` writes the inode back only if the size grew. Memory and disk agree afterwards
  exactly when the size grew or no new address was needed (`FileSystem.FileSystem.Writei`), so
  they always do in a file without holes. `FileSystem.TrimThenWrite` is a case where they do not.
- `sys_trim` can raise the size. All blocks below the size are allocated afterwards exactly when
  the new size does not pass the first block that is not allocated; in a file that has exactly its
  first m blocks, which writes and trims up to there keep, that is m blocks of bytes
  (`FileSystem.FileSystem.Trim`). An empty file trimmed to 1000 has a hole
  (`FileSystem.TrimmedHole`).
- `adduser`, `changepass` and `changeuser` take any text. After they succeed the file reads as
  intended exactly when no text that was given has a colon or a newline in it, and then names and
  uids stay distinct (`Accounts.ReadBack` and the three methods). `Accounts.UidsNotDistinct` and
  `Accounts.NamesNotDistinct` are files in which they are not distinct, and `Accounts.UidsReached`
  comes to the first from the installed file by adding a user and changing that user's password.
- A password record is read back as it was written exactly when no field has a colon and a
  password that is present is not empty (`Passwd.RoundTrip`, with `Passwd.ColonInPassword`,
  `Passwd.ColonInName` and `Passwd.EmptyPassword`). `changeline` replaces exactly one line unless
  the line after it is empty and the last (`Passwd.OneLineChanged`, with `Passwd.LastLineLost`).

The model follows the code where it does less than its names and comments suggest: `>>` in the
shell opens the file as `>` does, and `uva2ka` reads the entry of a page without testing whether
there is a page table.

Inputs that come from elsewhere are parameters: what `sbrk` returns, where the kernel's data
section begins, the calling process and its processor, whether opening a file succeeded, and
what the group files answered.

## Model

| member | source | states |
|---|---|---|
| RedoLog.HeadRoundTrip | kernel/log.c:84-113 | the header block that write_head stores is read by read_head as the same list |
| RedoLog.Reinstall | kernel/log.c:69-82 | installing again from the disk left by any part of an installation gives the same disk |
| RedoLog.RecoveryCrash | kernel/log.c:115-122 | a crash after any single-block write of recovery leaves a disk from which recovery reaches the disk it was heading for |
| RedoLog.RepeatedCrashes | kernel/log.c:115-122 | however often recovery is interrupted, the first one that completes gives what an uninterrupted one would have given |
| RedoLog.FillInvisible | kernel/log.c:177-190 | while only log blocks have been written, recovery gives the old home blocks |
| RedoLog.CommittedVisible | kernel/log.c:192-202 | once the header is on disk, recovery gives every block of the transaction |
| RedoLog.CommitCrash | kernel/log.c:177-202 | after any single-block write of commit, recovery gives all old home blocks or all new ones, the latter exactly from the write of the non-empty header on |
| Log.Log.constructor | kernel/log.c:53-66 | initlog recovers: the flat disk is the recovered one, and the writes made are those of recovery, in order |
| Log.Log.ReadHead | kernel/log.c:84-96 | the in-memory list is the one in the header block |
| Log.Log.WriteHead | kernel/log.c:98-113 | one disk write, of the header block with the in-memory list |
| Log.Log.WriteLog | kernel/log.c:176-190 | the loop makes exactly the writes that fill the log with the cached contents of the listed blocks |
| Log.Log.InstallTrans | kernel/log.c:68-82 | the loop makes exactly the writes that copy log blocks home, and unpins the buffers |
| Log.Log.RecoverFromLog | kernel/log.c:115-122 | the disk becomes the recovered disk by the writes that RecoveryCrash is about |
| Log.Log.Commit | kernel/log.c:192-202 | all home blocks on disk get their cached contents, no buffer stays pinned, and the writes are those that CommitCrash is about |
| Log.Log.BeginOp | kernel/log.c:124-141 | one pass of the admission loop: admitted exactly if no commit is running and the worst case of all admitted operations fits the log |
| Log.Log.LogWrite | kernel/log.c:213-233 | absorption: the block is listed once however often it is written, and its contents become current without a disk write; the panics are exact |
| Log.Log.EndOp | kernel/log.c:143-163 | the last operation, and no other, starts the commit |
| Log.Log.FinishCommit | kernel/log.c:165-173 | commit outside the lock, then the log is open again with an empty list |
| GroupCommit.LogReservation | kernel/log.c:124-174 | in every interleaving the listed blocks plus all unspent budgets are at most LOGSIZE, no block is listed twice, and commit runs only with no operation outstanding |
| GroupCommit.RecoveredPrefix | kernel/log.c:124-202 | after any run with any crashes, however often recovery is cut off by another crash, recovery gives the effect of a prefix of the writes that contains every operation wholly or not at all |
| GroupCommit.RecoveredAlways | kernel/log.c:124-202 | the same of every run, if the log area has one block or more than LOGSIZE |
| GroupCommit.RecoveryExact | kernel/log.c:124-202 | every run from every disk with an empty log, crashed anywhere, recovers to the effect of a prefix that splits no operation, if and only if the log area has one block or more than LOGSIZE |
| GroupCommit.FinishDurable | kernel/log.c:192-202 | when a commit has finished, that prefix is everything written so far |
| GroupCommit.RacingGuards | kernel/log.c:218-223 | a run, for every log of 2 to LOGSIZE blocks, in which two operations pass the unlocked guard and commit leaves the log area |
| GroupCommit.BlockLost | kernel/log.c:177-190 | such a run up to the end of write_log, with its disk: the block behind the log area has lost its contents although no operation wrote it, and the header is as it was |
| GroupCommit.LostForGood | kernel/log.c:115-122 | recovery of a disk on which a block outside the log differs and no operation wrote it gives the effect of no prefix of the writes |
| GroupCommit.LogAreaExact | kernel/log.c:177-190 | commit stays inside the log area in all runs if and only if the area has one block or more than LOGSIZE |
| LogWait.NobodyPassedOver | kernel/log.c:124-174 | in every interleaving of begin_op, log_write, end_op and commits: if a process sleeps in begin_op although the log would admit it, an end_op that has not finished its wakeup is under way |
| LogWait.CommitAlone | kernel/log.c:143-174 | end_op's panic is unreachable; while a process commits, no other commits and none is inside an operation |
| LogWait.NoDeadlock | kernel/log.c:124-174 | begin_op cannot deadlock: if every process is idle or asleep in begin_op, none is asleep |
| CachedLog.CopyBlock | kernel/log.c:75-80 | the body of the copy loops, through the buffer cache, is one write on the flat disk of the contents last given to the other block, and returns its locks and references; on an idle cache it is done exactly if the log block is cached or a buffer can be recycled; if it is not done, one of the two blocks was locked or no buffer can be recycled |
| CachedLog.PutHeader | kernel/log.c:98-113 | write_head through the buffer cache is one write on the flat disk; when it is done, and why not, is as for CopyBlock |
| CachedLog.BufferCount | kernel/bio.c:75-91 | with no references, a buffer can be recycled exactly if fewer than NBUF blocks are pinned |
| CachedLog.WriteLog | kernel/log.c:176-190 | write_log through the buffer cache makes the writes that Log.Log.WriteLog makes; on an idle cache it finishes exactly if fewer than NBUF blocks are pinned, and if it does not finish, a block it needs was locked or no buffer can be recycled |
| CachedLog.InstallTrans | kernel/log.c:68-82 | install_trans through the buffer cache makes the writes that Log.Log.InstallTrans makes; on an idle cache with fewer than NBUF blocks listed it finishes, and if it does not finish, the reason is the same |
| CachedLog.Commit | kernel/log.c:192-202 | commit through the buffer cache makes the writes that RedoLog.CommitCrash is about, in order, wherever it stops; when done, all home blocks are on disk, nothing is pinned and locks and references are as before; on an idle cache it is done exactly if fewer than NBUF blocks are listed; otherwise a needed block was locked or no buffer can be recycled |
| CachedLog.LogOnCache.LogWrite | kernel/log.c:213-233 | log_write on the cache keeps the pinned blocks and the list the same; the panics are exact |
| CachedLog.LogOnCache.Update | kernel/fs.c:517-521 | bread, memmove, log_write and brelse of a block; on an idle cache it goes through exactly if the log admits the block |
| CachedLog.LogOnCache.CommitOp | kernel/log.c:192-202 | a commit that is done leaves an empty transaction; on an idle cache it is done exactly if fewer than NBUF blocks are listed |
| CachedLog.RunTransaction | kernel/log.c:176-233 | a whole transaction of updates of different blocks on an idle cache: all updates go through, and they are on disk afterwards exactly if there are fewer than NBUF |
| BufferCache.Unlink | kernel/bio.c:131-132 | the two assignments that unlink a buffer leave the other buffers in order |
| BufferCache.PushFront | kernel/bio.c:49-53 | the four assignments that link a buffer in behind the head leave the others in order |
| BufferCache.MoveMembers | kernel/bio.c:131-136 | moving a buffer to the front loses none |
| BufferCache.PinOne | kernel/log.c:231-231 | setting B_DIRTY pins that buffer's block and no other |
| BufferCache.UnpinOne | kernel/memide.c:54-56 | clearing B_DIRTY unpins exactly the buffer's block, because a block has one buffer |
| BufferCache.BufferCache.constructor | kernel/bio.c:38-55 | all NBUF buffers are on the list once, unreferenced, unlocked and without a block, and the flat disk is what is on disk |
| BufferCache.BufferCache.Bget | kernel/bio.c:60-92 | a buffer for the block: the cached one, or else the least recently used one that is neither referenced nor dirty; the panic exactly if there is none |
| BufferCache.BufferCache.Recycle | kernel/bio.c:80-88 | reusing such a buffer keeps one buffer per block and changes nothing that can be read |
| BufferCache.BufferCache.AcquireBuf | kernel/bio.c:72-73 | the sleep-lock is taken exactly if it is free |
| BufferCache.BufferCache.Iderw | kernel/memide.c:35-60 | a dirty buffer is written to the flat disk, an invalid one gets the current contents; the panics are exact |
| BufferCache.BufferCache.Bread | kernel/bio.c:94-105 | the locked buffer holds the contents last given to the block; it is the one the block was in, or else the least recently used one that can be recycled; it waits only for a locked buffer of the block, and panics exactly if the block is not cached and no buffer can be recycled |
| BufferCache.BufferCache.Pin | kernel/log.c:231-231 | the cache's part of log_write defers the contents on the flat disk |
| BufferCache.BufferCache.Bwrite | kernel/bio.c:107-115 | the contents reach the disk and the buffer is clean |
| BufferCache.BufferCache.ReleaseBuf | kernel/bio.c:119-125 | releasing the lock keeps the cache coherent |
| BufferCache.BufferCache.Unreference | kernel/bio.c:127-139 | the count drops by one; with the last reference the buffer becomes the first of the list and the others keep their order |
| BufferCache.BufferCache.Brelse | kernel/bio.c:119-140 | lock and reference are given up and nothing that can be read changes; with the last reference the buffer becomes the first of the list and the others keep their order, otherwise the list stays |
| BufferCache.BufferCache.MoveFirst | kernel/bio.c:131-136 | the pointer surgery of brelse keeps every buffer on the list once |
| Lru.NoneOlder | kernel/bio.c:75-91 | the buffer that the search from the end takes is the one before which no other that can be recycled was used |
| Lru.Read | kernel/bio.c:94-140 | bread and brelse on an idle cache: the contents last given to the block, and its buffer is now the most recent |
| Lru.KeepsRecent | kernel/bio.c:60-140 | a block that was read stays in its buffer while fewer other reads follow than buffers could be recycled |
| BlockMap.LinkOwned | kernel/fs.c:383-398 | putting a newly allocated block into an empty slot keeps one owner per block |
| BlockMap.LinkFiles | kernel/fs.c:383-398 | and changes the contents of no file |
| BlockMap.DataUpdateFiles | kernel/fs.c:517-520 | overwriting the block behind a file block changes that file block of that file only |
| BlockMap.EmptiedOwned | kernel/fs.c:418-435 | emptying slots and releasing their blocks keeps one owner per block |
| BlockMap.OwnershipMeaning | kernel/fs.c:56-95 | a bit is set exactly if the block is metadata, held, or named by a slot, and no block is named twice |
| BlockMap.BinaryDigits | kernel/fs.c:65-66 | the bits of a bitmap byte are its binary digits, the lowest first |
| FileSystem.NamedApart | kernel/fs.h:44-53 | no block named by a file is the boot block, the superblock, a log block, an inode block or a bitmap block |
| FileSystem.DataPlace | kernel/fs.h:14-22 | laid out on one disk, a data block is where its number says |
| FileSystem.InodePlace | kernel/fs.h:44-47 | and every inode is in its place in its inode block |
| FileSystem.BitmapPlace | kernel/fs.h:50-53 | and every byte of the bitmap in its bitmap block |
| FileSystem.DiskRecorded | kernel/log.c:213-233 | every block of that disk in which the state before and after an operation differ is among the logged ones |
| FileSystem.LogMeta | kernel/fs.h:44-53 | inode, bitmap and data blocks may be logged: they are behind the first two blocks and outside the log |
| FileSystem.FileSystem.Ilock | kernel/fs.c:289-317 | the inode in memory is the current one; the panic "no type" is exact |
| FileSystem.FileSystem.FindFree | kernel/fs.c:62-67 | the scan finds the lowest free block, or the disk is full |
| FileSystem.FileSystem.Balloc | kernel/fs.c:56-78 | the lowest free block, never a metadata block, is marked and zeroed; the panic exactly if there is none |
| FileSystem.FileSystem.Bmap | kernel/fs.c:376-404 | the slot of block `bn` names the result, everything named before stays, files keep their contents, exactly the blocks that were lacking are taken, and the blocks logged are accounted for; it fails exactly if `bn` is out of range or there are fewer free blocks than are lacking |
| FileSystem.FileSystem.FinishIndirect | kernel/fs.c:393-400 | the same from the point where the indirect block exists |
| FileSystem.FileSystem.AllocAddr | kernel/fs.c:383-392 | a free block goes into an empty address and no file changes; it fails exactly if no block is free |
| FileSystem.FileSystem.AllocIndirect | kernel/fs.c:394-398 | a free block goes into an empty word of the indirect block and no file changes; it fails exactly if no block is free |
| FileSystem.FileSystem.Iupdate | kernel/fs.c:219-238 | the disk copy becomes the one in memory |
| FileSystem.FileSystem.Writei | kernel/fs.c:499-529 | exactly the bytes [off, off+n) of this file change, the size is right, exactly the blocks that the range lacks are allocated, with the indirect block if it is needed, and it panics exactly if fewer are free; no hole appears, the disk inode agrees iff the size grew or no address was new, every changed block is logged, and for every file the transaction is bounded by the blocks touched, the bitmap blocks and two |
| FileSystem.TightAfter | kernel/fs.c:499-529 | a file with blocks exactly below its size is such a file after a write |
| FileSystem.DenseWritten | kernel/fs.c:499-529 | a file that has exactly its first m blocks, at least up to its size, has after a write exactly its first blocks again, up to m or the end of the write |
| FileSystem.LackingRest | kernel/fs.c:516-522 | what a range lacks is what its first part lacks and then, once that is there, what the rest lacks |
| FileSystem.TrimThenWrite | kernel/sysfile.c:554-566 | an empty file trimmed to 1000 and then written at 0 differs in memory and on disk |
| FileSystem.FileSystem.WriteExtent | kernel/fs.c:516-522 | the loop writes the extent block by block and accounts for every block it logs |
| FileSystem.FileSystem.WriteBlock | kernel/fs.c:517-521 | one turn of the loop |
| FileSystem.FileSystem.Readi | kernel/fs.c:471-495 | the bytes [off, min(off+n, size)) across the direct/indirect boundary; a file without holes is not changed by reading; outside a transaction it panics exactly if the range has a hole |
| FileSystem.FileSystem.Bfree | kernel/fs.c:81-95 | the bit is cleared; the panic exactly if the block was free |
| FileSystem.FileSystem.Itrunc | kernel/fs.c:411-439 | every block of the inode becomes free, no other, bfree's panic is unreachable, and the empty file has no blocks |
| FileSystem.FileSystem.FreeDirect | kernel/fs.c:418-423 | the direct blocks |
| FileSystem.FileSystem.FreeIndirect | kernel/fs.c:425-435 | the blocks in the indirect block, and the indirect block |
| FileSystem.FileSystem.Trim | kernel/sysfile.c:554-566 | the size becomes the offset in memory and on disk; all blocks below the new size are allocated iff it does not pass the first block that is not, which in a file with exactly its first m blocks is m blocks of bytes |
| FileSystem.TrimExact | kernel/sysfile.c:554-566 | that equivalence, for any inode and any new size |
| FileSystem.TrimmedHole | kernel/sysfile.c:554-566 | an empty file trimmed to 1000 has a block below its size that is not allocated |
| FileWrite.ChunkFits | kernel/file.c:126-137 | the bound on what one chunk logs is at most MAXOPBLOCKS if and only if the chunk touches fewer than four blocks, lacks fewer than five, or the bitmap has fewer than five blocks; so it is if the block the chunk starts in is allocated |
| FileWrite.File.Write | kernel/file.c:116-155 | one transaction for each chunk of the bytes written: it writes exactly that chunk and logs every block it changes, at most MAXOPBLOCKS from the second chunk on and in the first as ChunkFits says; how many bytes are accepted is exact, in whole chunks up to the largest file size; exactly the blocks these lack are allocated, and the panic exactly if there are fewer free |
| FileWrite.File.WriteChunk | kernel/file.c:139-148 | one turn of the loop: writei inside its own transaction, with the bound on what is logged |
| FileWrite.WriteMounted | kernel/file.c:116-155 | any file of any image that mkfs makes, mounted, opened and written: every operation logs at most MAXOPBLOCKS blocks |
| LargeBitmap.ElevenLogged | kernel/fs.c:499-529 | a write that takes the last five free blocks, each under a different bitmap block, into four blocks and the indirect block of a file logs at least eleven |
| LargeBitmap.ElevenBlocks | kernel/file.c:126-137 | a chunk of filewrite in such a file logs MAXOPBLOCKS + 1 blocks |
| LargeBitmap.ReservationExceeded | kernel/file.c:126-137 | there is an image on which that happens |
| FileWrite.Stopped | kernel/file.c:131-152 | the chunk that writei rejects is where the write stops |
| Mkfs.Image.constructor | tools/mkfs.c:210-232 | the empty image: metadata owned, everything else free and zero |
| Mkfs.Image.Ialloc | tools/mkfs.c:340-353 | the next inode, empty |
| Mkfs.Image.MapBlock | tools/mkfs.c:387-404 | the slot of the block names a block, taken in order, and everything named before stays; it takes exactly the blocks that are missing, and fails exactly if they are not there |
| Mkfs.NeededNext | tools/mkfs.c:386-404 | a growing file needs a new block exactly at block boundaries, and the indirect block with the first block past the direct ones |
| Mkfs.Image.Iappend | tools/mkfs.c:373-415 | the bytes are appended to the file, no other file changes, blocks keep one owner, and files have exactly the blocks their sizes call for; it fails exactly if the file would pass MAXFILE blocks or the image runs out |
| Mkfs.Image.Balloc | tools/mkfs.c:355-369 | the bitmap marks exactly the blocks in use |
| Mkfs.Image.Mount | tools/mkfs.c:184-285 | the superblock puts the log at 2, the inodes at 32, the bitmap at 133 and the data at 134, and these areas do not overlap; the kernel's invariants hold of the finished image, its inodes are those of the image, and every file in it has blocks exactly below its size |
| SleepWakeup.InvStep | kernel/proc.c:434-490 | every step of sleep, wakeup, acquire and release keeps the protocol's invariant |
| SleepWakeup.NoLostWakeup | tools/sleep1.p:54-133 | for any number of processes and any run: if a process sleeps although its condition holds, another process that is not asleep still owes it the wakeup |
| SleepLock.OneHolder | kernel/sleeplock.c:22-53 | in every run a process owns the lock exactly if `locked` is set with its pid, so at most one does, and holdingsleep is right |
| SleepLock.NoSleeperOnFree | kernel/sleeplock.c:34-42 | once the releases have finished nobody sleeps on a free lock |
| Pipe.FullTest | kernel/pipe.c:83-83 | comparing the wrapped counters recognises a full ring and nothing else |
| Pipe.EmptyTest | kernel/pipe.c:104-112 | comparing the wrapped counters recognises an empty ring and nothing else |
| Pipe.FreeSlot | kernel/pipe.c:91-91 | the slot written next holds no byte still to be read |
| Pipe.Ring.WriteStay | kernel/pipe.c:76-96 | the bytes stored are appended to what was sent, as many as fit; when it stops is exact |
| Pipe.Ring.ReadStay | kernel/pipe.c:98-119 | the bytes returned are the next ones that were sent, in order, as many as there are |
| PipeSync.PipeInvRun | kernel/pipe.c:58-119 | readers, writers and closers in any interleaving keep the invariant |
| PipeSync.NobodyStuck | kernel/pipe.c:58-119 | with the lock free, a sleeping reader implies empty and open for writing, a sleeping writer full and open for reading, so both never sleep together; the counters are within PIPESIZE modulo 2^32 |
| ProcTable.ProcTable.constructor | kernel/proc.c:119-156 | the table after userinit satisfies the invariant: one runnable process with pid 1, every other slot unused, every processor idle |
| ProcTable.ProcTable.AllocProc | kernel/proc.c:73-117 | the first unused slot gets the next pid, which is then used up; none exactly if all are in use |
| ProcTable.ProcTable.Abandon | kernel/proc.c:195-200 | the failure path gives the slot back |
| ProcTable.ProcTable.ForkDone | kernel/proc.c:201-230 | the child becomes a runnable child of the caller |
| ProcTable.ProcTable.Exit | kernel/proc.c:236-277 | the whole effect of exit, slot by slot: who sleeps on its parent is woken, its children are init's, who sleeps on init is woken if one of them is a zombie, the caller is a zombie off its processor, and nothing else changes; the invariant holds |
| ProcTable.ProcTable.AdoptChildren | kernel/proc.c:264-271 | the loop that hands the children to init |
| ProcTable.ProcTable.Wait | kernel/proc.c:281-321 | one pass: the first zombie child is reaped once, or there are no children, or the caller sleeps without a zombie child |
| ProcTable.ProcTable.Wakeup1 | kernel/proc.c:473-481 | a process becomes runnable exactly if it sleeps on this very channel, and nothing else of any slot changes |
| ProcTable.ProcTable.Wakeup | kernel/proc.c:483-490 | the same, and the invariant holds |
| ProcTable.ProcTable.Switch | kernel/proc.c:350-369 | a runnable process starts on an idle processor |
| ProcTable.ProcTable.Yield | kernel/proc.c:402-409 | the running process becomes runnable and its processor idle |
| ProcTable.ProcTable.Sleep | kernel/proc.c:434-469 | the running process sleeps and its processor is idle |
| ProcTable.EveryoneDescends | kernel/proc.c:264-271 | following parents from any live or zombie process ends at init |
| ProcTable.ExitKeeps | kernel/proc.c:236-277 | exit keeps: no parent pointer to a free or dead slot, nobody asleep in wait with a zombie child, pids distinct, RUNNING and processors one to one, each exit reaped at most once |
| ProcTable.ReapKeeps | kernel/proc.c:296-308 | reaping keeps the same |
| ProcTable.ForkKeeps | kernel/proc.c:182-231 | fork keeps the same |
| ProcTable.WokenKeeps | kernel/proc.c:473-490 | waking keeps the same |
| Paging.NewTableOwned | kernel/vm.c:44-53 | a new page table changes no mapping and has one owner |
| Paging.MapOwned | kernel/vm.c:69-73 | mapping a page keeps one owner per page |
| Paging.UnmapOwned | kernel/vm.c:269-275 | unmapping a page hands its frame back |
| Paging.DismantleOwned | kernel/vm.c:290-297 | taking a directory and its tables apart leaves other address spaces as they were |
| Paging.Partitioned | kernel/vm.c:59-80 | no frame is mapped twice, and a mapped frame is neither free nor a page table |
| Vm.Vm.constructor | kernel/kalloc.c:46-53 | freerange: every page from the first on is on the free list once |
| Vm.Vm.Kalloc | kernel/kalloc.c:82-95 | the first page of the list; none exactly if it is empty |
| Vm.Vm.Kfree | kernel/kalloc.c:59-77 | the page is first on the list; the panic is unreachable, because the kernel's pages never change hands |
| Vm.Vm.WalkPgdir | kernel/vm.c:35-55 | a page table for the address exists afterwards unless it was missing and could not or should not be made; no mapping changes, and free pages and page tables together stay as many |
| Vm.Vm.MapUser | kernel/vm.c:59-80 | one user page is mapped, or nothing changed; "remap" exactly if it was mapped, out of memory exactly if the page table is missing and no page is free |
| Vm.Vm.MapKernel | kernel/vm.c:59-80 | a run of kernel pages is mapped up to the first that fails; out of memory only if a page table is missing and no page is free |
| Vm.Vm.Deallocuvm | kernel/vm.c:255-279 | exactly the present pages in the range are unmapped and their frames freed, although missing page tables are skipped over |
| Vm.Vm.Allocuvm | kernel/vm.c:221-249 | success maps exactly the new pages, zeroed and user-writable; it fails exactly if there are fewer free pages than new pages and missing page tables, and failure restores mappings, frames and owners except for new page tables |
| Vm.Restored | kernel/vm.c:235-246 | undoing a partial growth gives the address space back as it was |
| Vm.Vm.Freevm | kernel/vm.c:283-298 | every page of the address space becomes free, each once, and no other changes hands |
| Vm.Vm.Setupkvm | kernel/vm.c:105-136 | exactly the kernel's mappings, each with its page and its permissions, none of them for the user; it fails exactly if fewer than 65 pages are free, and then every page is owned as before |
| Vm.RightsFrom | kernel/vm.c:105-115 | from the end of user memory on: physical memory at KERNBASE, read-only from EXTMEM to the kernel's data and writable elsewhere, devices writable, nothing else |
| Vm.RunEntry | kernel/vm.c:105-115 | each line of the table maps what the layout says between its start and the next |
| Vm.GivenBack | kernel/vm.c:342-344 | freeing an address space built from free pages restores the owners of all pages, the other mappings and all frames |
| Vm.Vm.PlacePage | kernel/vm.c:332-338 | one turn of copyuvm: a free page becomes the user page, with its page table if that is missing; fails exactly if there are not enough, and then nothing has changed |
| Vm.Vm.Copyuvm | kernel/vm.c:315-345 | the copy has the same bytes and flags at every page below `sz` on frames that were free, and nothing else of the user; up to the first page that is not present it fails exactly if there are fewer free pages than the directory, the pages and their page tables take, and then everything is as before; the panic exactly if it gets to that page |
| Vm.Vm.Clearpteu | kernel/vm.c:302-311 | the entry of one page is what it was with PTE_U cleared; nothing else changes; the panic exactly if there is no page table |
| Vm.ClearUserFields | kernel/vm.c:310-310 | clearing PTE_U changes no other bit |
| Vm.Vm.Uva2ka | kernel/vm.c:348-359 | the frame exactly if the page is present for the user; without a page table the source reads through a null pointer |
| Vm.Vm.Copyout | kernel/vm.c:364-385 | the user bytes from `va` on become the buffer, all of them exactly if every page is accessible, also where the range would pass the end of the address space, and no other byte of any address space changes; where and why it stops is exact |
| Vm.OnlyPrivate | kernel/vm.c:105-115 | the kernel's mappings are not accessible to the user |
| Umalloc.Units | user/umalloc.c:70-70 | the fewest units that hold the bytes and a header |
| Umalloc.SearchTest | user/umalloc.c:31-33 | the two tests of the search loop hold at the one place where the block belongs |
| Umalloc.RelinkedStages | user/umalloc.c:34-43 | free's stores are an insertion followed by the joins that apply |
| Umalloc.JoinAt | user/umalloc.c:34-43 | joining two neighbours keeps the list circular and ordered, and every unit in one block |
| Umalloc.TakeWhole | user/umalloc.c:77-78 | unlinking a block that fits exactly keeps the list |
| Umalloc.TakePart | user/umalloc.c:80-82 | splitting the tail off a larger block keeps the list and gives the tail its units |
| Umalloc.RoundDone | user/umalloc.c:87-87 | when the scan is back at its start, no free block is large enough |
| Umalloc.UnitsConserved | user/umalloc.c:24-91 | the sizes of all free and allocated blocks add up to the units obtained from sbrk |
| Umalloc.Heap.Search | user/umalloc.c:31-33 | the loop terminates at the node after which the block belongs |
| Umalloc.Heap.Free | user/umalloc.c:24-45 | the block's units are free; the list stays circular, address-ordered and coalesced; other blocks keep units and contents |
| Umalloc.Heap.Morecore | user/umalloc.c:47-62 | the new units join the free ones and some block is large enough |
| Umalloc.CoreUnits | user/umalloc.c:52-53 | as many units as are needed, but at least 4096 |
| Umalloc.Heap.Carve | user/umalloc.c:76-86 | exactly the units asked for are taken, from the end of the block |
| Umalloc.Heap.Malloc | user/umalloc.c:64-91 | the scan terminates after at most one call of sbrk; null exactly if nothing fits and sbrk fails; the block is new and has exactly the units needed; other blocks keep units and contents |
| Shell.GetToken | user/sh.c:259-302 | the next token of the line, and the cursor behind it and the whitespace after it |
| Shell.Peek | user/sh.c:304-314 | the answer is about the next token, and the cursor passes only whitespace |
| Shell.ParseLine | user/sh.c:338-353 | the cursor code computes the grammar's Line on the tokens at the cursor, and terminates |
| Shell.ParsePipe | user/sh.c:355-366 | likewise Pipeline |
| Shell.ParseRedirs | user/sh.c:368-391 | likewise Redirs; each redirection stands for a symbol and the word behind it, in order, input for `<` and output for `>` and `>>`, up to the first token that is no such symbol |
| Shell.ParseBlock | user/sh.c:393-407 | likewise Block |
| Shell.ParseExec | user/sh.c:409-440 | likewise Executable, with the bound on arguments |
| Shell.LineWords | user/sh.c:338-440 | every word that was parsed is in the command once, and argv always has room for its null |
| Shell.NulTerminate | user/sh.c:443-487 | exactly the characters behind the command's words become NUL |
| Shell.TokensSurvive | user/sh.c:443-487 | afterwards every argument and file name read as a C string is the text of its token |
| Shell.ParseCmd | user/sh.c:321-336 | an accepted line gives the command of the grammar with all the words of the line, each readable in place; a rejected line is not changed |
| ShellGrammar.Grammar | user/sh.c:338-440 | a list of tokens is accepted, with a command, if and only if it is written from a syntax tree that means that command: redirections before, between and behind arguments and behind blocks apply from left to right, fewer than MAXARGS arguments each |
| ShellGrammar.SentenceBack | user/sh.c:338-440 | what is written from a tree is parsed up to its end |
| ShellGrammar.SentenceTree | user/sh.c:338-440 | whatever is parsed, also in front of something else, is written from a tree |
| ShellGrammar.SimpleRejected | user/sh.c:376-434 | which panic it is: an argument too many, a parenthesis behind an argument or redirection, a redirection without a file |
| ShellGrammar.BlockRejected | user/sh.c:401-402 | a block that is not closed panics |
| ShellPrint.Lexical | user/sh.c:259-302 | a line is read as a list of tokens if and only if it is written from them, with any whitespace that is there at least between two words and between `>` and `>` |
| ShellPrint.LineNatural | user/sh.c:338-440 | parsing depends on where words are, not on what they are |
| ShellPrint.ParsePrint | user/sh.c:321-440 | printing any command with plain words and fewer than MAXARGS arguments each, with any spacing, and parsing the text gives the command back |
| ShellPrint.ParseText | user/sh.c:321-440 | the text of any tree, with any spacing, is read as what the tree means |
| ShellPrint.TreeOf | user/sh.c:338-440 | every command with fewer than MAXARGS arguments each is what some tree means |
| Matcher.HereOne | user/grep.c:95-96 | a pattern that begins with one character matches exactly if it fits and the rest matches behind it |
| Matcher.HereStar | user/grep.c:91-92 | a pattern that begins with a star matches exactly if the rest matches behind some run of the character, or of any characters for `.` |
| Matcher.ParseShow | user/grep.c:86-98 | a pattern is read as it was written if and only if no character is followed by a star that is not its own and no `$` that is not the end stands last |
| Matcher.ShowParse | user/grep.c:86-98 | every pattern is written from what is read from it |
| Matcher.Match | user/grep.c:73-83 | true exactly if some part of the text splits into pieces that fit the items of the pattern, anchored as `^` and `$` say |
| Matcher.MatchHere | user/grep.c:86-98 | true exactly if the text begins with such a split |
| Matcher.MatchStar | user/grep.c:101-109 | true exactly if the rest of the pattern matches behind some run of fitting characters |
| Passwd.ValueDigits | user/ulib.c:112-121 | the decimal digits of a number denote it |
| Passwd.Atoi | user/ulib.c:112-121 | the value of the leading digits |
| Passwd.DigitCount | user/ulib.c:136-144 | the number of decimal digits |
| Passwd.Decimal | user/uauth.c:134-142 | filling the digits in from the right gives the decimal digits |
| Passwd.SplitAppend | user/uauth.c:80-110 | the fields of two texts joined by a colon are the fields of both |
| Passwd.ParseUser | user/uauth.c:76-112 | of any C string the loop reads the first six fields; with fewer it reads behind the string |
| Passwd.Segment | user/uauth.c:81-82 | one field, up to the next colon or the end |
| Passwd.GetUserLength | user/uauth.c:22-34 | the length of the line that writeuser composes |
| Passwd.Compose | user/uauth.c:114-162 | the line fills its buffer exactly |
| Passwd.RoundTrip | user/uauth.c:76-168 | a record written and read is the same if and only if no field has a colon and a password that is there is not empty |
| Passwd.ColonInPassword | user/uauth.c:127-131 | a record whose password has colons is read with another uid |
| Passwd.ColonInName | user/uauth.c:122-125 | a record whose name has a colon is read with another name and uid |
| Passwd.EmptyPassword | user/uauth.c:87-90 | an empty password is read as none |
| Passwd.GetLine | user/ufile.c:145-178 | the next of the lines that make up the rest of the file, and the offset behind it |
| Passwd.ReadJoin | user/ufile.c:145-187 | lines are read back from the file they make up if and only if none has a newline in it and the last is not empty |
| Passwd.ChangeLine | user/ufile.c:189-232 | for any lengths, the file becomes the one given by ChangedFile: copied through the temporary file, with what that held beyond, and cut to the new size; the offset moves by the difference of the lengths |
| Passwd.OldTemp | user/ufile.c:189-232 | if the old line lies inside the file, it is replaced and the rest follows it, and then what the temporary file held beyond that |
| Passwd.NewTemp | user/ufile.c:189-232 | with a new temporary file exactly that line is replaced |
| Passwd.EarlyLine | user/ufile.c:202-224 | if the old line would begin before the file, nothing is written and only the size is set |
| Passwd.OneLineChanged | user/ufile.c:189-232 | that is the file with exactly this line changed, if and only if the next line is not empty and the last |
| Passwd.LastLineLost | user/ufile.c:207-212 | changing the first of two lines of which the second is empty loses the second |
| Accounts.NextRecord | user/uauth.c:192-198 | from the start of line `k` of any file, the next line read is record `k` |
| Accounts.FindByName | user/uauth.c:205-221 | in any file, the first record with the name, or there is none, or a line with too few fields comes first |
| Accounts.FindByUid | user/uauth.c:187-203 | in any file, the first record with the uid, or there is none, or a line with too few fields comes first |
| Accounts.ReadBack | user/uauth.c:114-168 | a well-formed file into which a record was written reads as intended if and only if no field of the record has a colon or newline, and is then well formed |
| Accounts.StaysDistinct | user/uauth.c:331-448 | names and uids stay distinct when those written are used by no other record |
| Accounts.UidsNotDistinct | user/uauth.c:320-325 | the installed file with a record whose password has colons reads with the uid 0 twice |
| Accounts.NamesNotDistinct | user/uauth.c:363-373 | the installed file with a record whose name has a colon reads with one name twice |
| Accounts.UidsReached | user/uauth.c:292-377 | from the installed file, adduser and then changepass by that user lead to a file with two accounts of uid 0 |
| Accounts.EnoughLeft | user/uauth.c:311-325 | whatever replaces the fields of a record of any file, the file that changeline leaves does not end before its beginning |
| Accounts.PlacedRead | user/uauth.c:292-448 | the line of a record of a well-formed file is replaced in place, and the file reads as intended if and only if the fields are clean |
| Accounts.Accounts.constructor | cfg/passwd:1-1 | the installed file is the line of one record |
| Accounts.Accounts.AddUser | user/uauth.c:331-377 | on any file and for any texts: every result is exact, success exactly if name and uid are free and the group updates succeed; then exactly one line is appended, with the given or the next free uid, which is used up even if a group update fails; the file reads with exactly this record more if and only if the texts have no colon or newline, and names and uids then stay distinct |
| Accounts.Accounts.ChangeUser | user/uauth.c:379-448 | on any file and for any texts: every result is exact, success exactly if the account is found and the new name and uid are free, and the line of that record is then rewritten with each field that was given and the others as they were; of a well-formed file exactly that line changes, it reads with exactly that record changed if and only if the texts have no colon or newline, and names and uids then stay distinct |
| Accounts.Accounts.ChangePass | user/uauth.c:292-329 | on any file and for any text: of the accounts found, the superuser changes any, and nobody else changes any but their own, and that only with its password if it has one; the other results are exact, and only success changes the file, by rewriting the line of that record; of a well-formed file exactly that line changes, it reads with exactly that password changed if and only if the new one has no colon or newline, and names and uids then stay distinct |
| Accounts.Accounts.Append | user/ufile.c:180-187 | addline puts the line of the record behind the others |
| Accounts.Accounts.Replace | user/ufile.c:189-232 | changeline for a record of any file, with the lengths that uauth computes |

## Left out

- Devices, boot, interrupts, spinlocks and context switches: the disk is a sequence of blocks written one at a time, and taking or releasing a spinlock is one step.
- Reading the superblock: a mounted file system has its values as constants.
- Inode reference counts, directories, path names, permissions and exec: they add case splits on top of the operations modelled here.
- kill and the killed flag: `pipewrite` returns on it without waking readers, and the flag races with sleep.
- FileSystem.FileSystem.Writei: device inodes are not modelled; block contents are one sequence and inodes another, so that an inode block is written as one record.
- FileWrite.File.Write: pipes and the reference counts of open files are not modelled.
- LogWait.NobodyPassedOver: the list is emptied in the step that reopens the log; in between it is changed without the lock, but then nobody is admitted.
- CachedLog.Commit: where bread would wait for another process it stops; nothing that other processes may do meanwhile changes the flat disk.
- CachedLog.RunTransaction: one process on an idle cache; with other processes the operations are those of BufferCache, which leave the flat disk alone or change it as stated.
- GroupCommit.RecoveredPrefix: restricted to runs in which commit stays inside the log area; RecoveryExact says for which areas that is all runs, and a commit that leaves the area is followed through write_log, not through the header write and the installation.
- Pipe.Ring.WriteStay: bytes are stored in one step per stay under the lock; the sleeps between stays are in PipeSync.
- ProcTable.ProcTable.ForkDone: copying memory, files and the trap frame is not part of the process table; the parent pointer is set in the step that makes the child runnable; that the child's pid is larger than the caller's, which allocproc provides, is a precondition.
- ProcTable.ProcTable.Switch: the order in which the scheduler visits the table is not modelled.
- Vm.Vm.MapUser: the source's mappages takes ranges of bytes; the model has its two uses, one user page and a run of whole kernel pages.
- Vm.Vm.Freevm: the page tables of the directory stop being read through it before the first of them is freed; the source frees them one by one while the directory still names them.
- Vm.Vm.Copyout: that the kernel's half is not accessible to the user, which Setupkvm and Copyuvm establish and the other operations keep, is a precondition.
- inituvm, loaduvm, switchkvm and switchuvm: they load contents and registers and add nothing to ownership.
- Umalloc.Heap.Malloc: requests so large that the argument of sbrk would not be a positive int are excluded, and memory from sbrk lies above the program's static data; realloc is left out because it scales byte counts by the size of a pointer.
- Shell.ParseExec: the commands that redirections wrap are values, so an argument added after a redirection is added before wrapping; running the commands is left out.
- grep's line reader, the console, and the other user commands: input and output only.
- Passwd.GetLine: the intended contract; the source tests a character of its buffer before filling it.
- Passwd.ParseUser: what the source finds behind a line with fewer than five colons is not modelled.
- Passwd.ChangeLine: what a file gets where its size is raised over blocks it kept is a parameter.
- Accounts.Accounts.AddUser: uids are not negative and do not overflow; creating home directories and the group files are left out.
- Accounts.Accounts.Replace: the temporary file is new; Passwd.OldTemp says what an old one does.
- pipeclose: closing an end is a step of PipeSync; that the second close frees the pipe is left out.
- Group membership editing: it does not compute the set operations one would state.
