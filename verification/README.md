# xv6-ASAVersion in Dafny

A model of the parts of this xv6 kernel (x86, with a multi-level scheduler added) that carry
state machines, refinements and conservation laws, and proofs about it: the crash-safe
storage stack, the user-level heap, the page allocator and address spaces, sleep locks,
pipes, the process table and the scheduler, the shell's parser, and grep's matcher.

`dafny verify dfyconfig.toml` checks the whole project (Dafny 4.11).

## How the code is modelled

- C memory is a value field: a pointer is an index, a list or table is a `seq` or a `map`, a
  fixed buffer is an `array`. An object whose fields the C code updates is a class, and its
  methods keep the loops of the C code. Ghost fields hold what the C code leaves implicit:
  the free list as a sequence, who owns a block or a page, which writes reached the disk.
- A panic is either a precondition, a Boolean or `Died`/`Panic` result, or proved unreachable.
- A disk write replaces one whole block at once (the driver's contract at
  `xv6-public-master/ide.c`). A crash keeps the disk and forgets everything else.
- Concurrency is a state machine: a step is what happens in one hold of a lock, or, for sleep
  locks, one micro-step; a theorem speaks of every state of every run.
- Where a method is proved against a specification function, a lemma or a further clause says what
  that function does without using it: on the bytes of a block, the fields of a slot, the addresses
  of a program, the text of a line.
- Interrupt handlers, the random draw, the clock and what a running process does are
  parameters. Integers are unbounded except where width matters: byte and word layout,
  `malloc` sizes, pipe counters, file offsets.

| files | subject |
|---|---|
| `Recovery`, `RawWrites`, `LogHeader`, `Bio`, `Coherence`, `Log`, `LogReservation` | write-ahead log over the buffer cache |
| `Blocks`, `Inodes`, `DiskBytes`, `Contents`, `FileMap`, `WriteSteps`, `Truncate`, `FileSys`, `Mkfs`, `WideChunk` | bitmap, inodes and file contents, with holes |
| `CrashFs`, `DurableFs` | crashes as a file sees them, down to the block writes of the log |
| `Heap` | `malloc` and `free` |
| `PageTables`, `PageBudget`, `Vm`, `Mmu` | page allocator and address spaces |
| `ProcTable`, `ProcLoops`, `Scheduler`, `SleepLock`, `Pipe` | processes |
| `ShellGrammar`, `ShellTheorems`, `ShellCommands`, `ShellLines`, `ShellLanguage`, `ShellTrees`, `Shell`, `Grep` | the two little languages |
| `Collections` | facts about sequences and sets |

## Where the code does less than it seems to promise

Each of these has a lemma with the failing case and, where it is a guard, the exact condition.

- `log_write` compares with `log.size - 1`, so on a disk whose log has LOGSIZE blocks, as mkfs
  makes it, an operation within its budget can be refused. It happens in some run exactly when
  `log.size <= LOGSIZE` (`LogReservation.RefusalIffLogTooSmall`). The check also comes before
  absorption, so a full log refuses a block that is already in it
  (`LogReservation.AbsorbingWriteRefused`). And it comes before `log.lock` is taken
  (`xv6-public-master/log.c:218-223`), so two writers can both pass it and then both append: some
  run commits as many blocks as the log has, and `write_log` writes behind it, exactly when
  `2 <= log.size <= LOGSIZE` (`LogReservation.OverrunIffLogTooSmall`).
- `commit` reads and writes the log through the cache, and readers that need no transaction come
  and go meanwhile (`fileread`, `xv6-public-master/file.c:103-107`). It panics exactly at the first
  of its writes for which the blocks still pinned and the buffers that others use take up the whole
  cache, so that none can be recycled; never if the listed blocks leave room for all readers
  (`Log.Log.Commit`). One reader is enough when NBUF - 1 blocks are pinned
  (`CacheSteps.OneReaderIsEnough`).
- `readi` on a hole makes `bmap` allocate, and `log_write` then panics unless an operation is
  outstanding somewhere. `fileread` opens none, so this depends on other processes: it panics exactly
  when the range meets a hole and none of them is inside an operation, or too few blocks are free.
  If one is, the new blocks are logged on its account, and the inode's new pointers stay in memory
  (`FileSys.Fs.ReadI`). Inside a file without holes none of this happens (`FileMap.DenseCost`).
- mkfs rounds the size of the root directory up to the next block even if it is a whole number of
  blocks already; exactly then it leaves a hole (`Mkfs.RoundingLeavesHole`, `Mkfs.MkfsRootHole`).
- `writei` calls `iupdate` for a new size only. After a write that does not grow the file the inode
  on the disk is current exactly when no pointer of the inode was missing
  (`WriteSteps.WroteSynced`). Otherwise a restart forgets the write, although it has committed, and
  its block stays in use for ever (`CrashFs.HoleWriteForgotten`). `readi` never calls `iupdate`; after
  it the inode on the disk is current exactly when no pointer was missing (`FileSys.ReadSynced`), and
  a later write inside the file stays forgotten too (`CrashFs.ReadThenWriteForgotten`). So is a new
  entry in the last block of a root directory that mkfs left with a hole (`Mkfs.RootEntryForgotten`).
- A chunk of `filewrite` logs at most MAXOPBLOCKS blocks unless it starts inside a hole
  (`WriteSteps.ChunkFitsReservation`); then it may log one more, and on a disk with five blocks of
  free map it does (`WideChunk.OneBlockTooMany`).
- `writei` and `filewrite` panic when the disk is full, exactly when more of the range is missing
  than is free (`FileSys.Fs.WriteI`, `FileSys.Fs.FileWrite`). A `filewrite` that meets the size limit
  returns -1 although it has written the whole chunks below it.
- `malloc` computes its unit count and the `sbrk` argument in 32 bits: the block is large enough
  exactly below the wrap-around (`Heap.UnitsLargeEnough`, `Heap.SbrkArgExact`).
- `pipewrite` by a killed process that meets a full pipe returns without waking the readers; a
  reader then sleeps on a full pipe (`Pipe.LostWakeupHappens`, `Pipe.LostWakeupExactly`).
- `lottery` and `BJF` choose a process of level 2 or 3 but dispatch only level 1, so they run
  nobody (`Scheduler.Cpu.DispatchChosen`, `Scheduler.Cpu.Iteration`); a waiting process of level
  2 or 3 runs exactly when it comes of age (`Scheduler.RunsExactlyThen`). A process that comes of
  age starts over at 0 and is then charged for its turn, so at level 1 `waited` can be -1
  (`Scheduler.AgedTurnIsCharged`); at levels 2 and 3 it never is, and the waiting bound holds over
  whole runs (`Scheduler.RunBoundedWaiting`).
- `kill` compares pids only. It marks an unused slot exactly when no process has the pid and some
  slot still does (`ProcTable.KillHitsProcessExactly`), and `allocproc` leaves the mark. An unused
  slot has pid 0 unless a fork in it was abandoned (`ProcTable.StalePidExactly`). So a new process
  starts killed exactly when `kill` hit its slot since the slot was last reaped
  (`ProcTable.BornKilledExactly`): by `kill(0)` (`ProcTable.KillZeroReachesNextChild`), by the pid
  of a failed fork (`ProcTable.StalePidReachesNextChild`), or while a fork that then failed held
  the slot (`ProcTable.KilledForkReachesNextChild`).
- The shell opens the file of `>>` exactly as that of `>` (`ShellCommands.SimpleCommandParses`), and
  refuses a command behind `&` (`ShellLines.NothingBehindBack`).

## Model

| member | source | states |
|---|---|---|
| `Recovery.InstallPrefix` | xv6-public-master/log.c:69-82 | the first k installs change exactly the first k listed home blocks |
| `Recovery.LogWritesPrefix` | xv6-public-master/log.c:177-190 | the first k log writes fill exactly the first k log blocks |
| `Recovery.InstallKeepsMeaning` | xv6-public-master/log.c:69-82 | a crash after any number of installs leaves the meaning of every home block unchanged |
| `Recovery.RecoveryIsRestartable` | xv6-public-master/log.c:115-122 | recovery cut off after any write can be restarted: every prefix of its writes keeps the meaning, a complete one empties the header and installs it |
| `Recovery.HeaderWriteCommits` | xv6-public-master/log.c:101-113 | the single header write switches the meaning of all logged blocks at once |
| `Recovery.CommitIsAtomic` | xv6-public-master/log.c:192-202 | after any prefix of commit's writes the home blocks mean all-old up to the header write and all-new from it on |
| `Recovery.CommitSplits` | xv6-public-master/log.c:192-202 | what commit writes after the header is what recovery would write |
| `Recovery.UpdateHomeAt` | xv6-public-master/log.c:69-82 | a transaction carried out one block at a time is the pointwise update |
| `Recovery.RunCommits` | xv6-public-master/log.c:192-202 | a run of transactions leaves exactly their composition on the home blocks |
| `Recovery.CrashedRecoveriesKeepMeaning` | xv6-public-master/log.c:115-122 | any number of recoveries, each cut off anywhere, keep the meaning |
| `Recovery.CrashSafety` | xv6-public-master/log.c:69-202 | run of commits, crash after any write, any crashed recoveries, one complete recovery: the home blocks hold all committed transactions and the last one all or nothing, all exactly when its header write reached the disk |
| `LogHeader.ReadHeader` | xv6-public-master/log.c:85-96 | reads the list that the header block encodes: the count in its first four bytes, low byte first, and the j-th block number in the four at 4 + 4j |
| `LogHeader.WriteHeader` | xv6-public-master/log.c:101-113 | writes a block that reads back as the given list, on those bytes, and keeps the other words |
| `LogHeader.HeaderOnBytes` | xv6-public-master/log.c:34-37 | struct logheader byte by byte |
| `Blocks.WordOnBytes` | xv6-public-master/log.c:34-37 | a word is stored low byte first: the four bytes are the digits of its value to base 256 |
| `RawWrites.DecodedCommit` | xv6-public-master/log.c:192-202 | the raw block writes of commit decode to the abstract ones |
| `RawWrites.DecodedInstalls` | xv6-public-master/log.c:192-202 | so do those of a commit that stopped while installing |
| `RawWrites.CrashInCommit` | xv6-public-master/log.c:192-202 | crash atomicity for raw block writes with the header as bytes, of a commit that ran to its end or stopped before |
| `RawWrites.CrashInRecovery` | xv6-public-master/log.c:115-122 | the same for a crash during recovery |
| `RawWrites.CommitEffect` | xv6-public-master/log.c:192-202 | a complete commit leaves an empty header and the new home blocks |
| `RawWrites.RecoveryEffect` | xv6-public-master/log.c:115-122 | a complete recovery leaves an empty header and the meant home blocks |
| `Bio.PushFront` | xv6-public-master/bio.c:46-55 | the four pointer writes put a buffer first in the circle |
| `Bio.Unlink` | xv6-public-master/bio.c:129-133 | the two pointer writes take exactly one buffer out of the circle |
| `Bio.CycleIsInverse` | xv6-public-master/bio.c:28-36 | next and prev are inverse to each other on the one cycle through the head |
| `Bio.MovedToFront` | xv6-public-master/bio.c:127-138 | moving a released buffer to the front keeps the list sorted by time of release |
| `Bio.BCache.constructor` | xv6-public-master/bio.c:38-56 | binit builds one cycle of all buffers |
| `Bio.BCache.FindCached` | xv6-public-master/bio.c:68-76 | the forward walk finds the buffer of the block, if there is one |
| `Bio.BCache.FindRecyclable` | xv6-public-master/bio.c:78-92 | the backward walk finds the least recently released buffer that is unreferenced and not dirty |
| `Bio.BCache.BGet` | xv6-public-master/bio.c:61-93 | returns the cached buffer or recycles the least recently released clean one; identities stay unique; no buffer exactly when there is neither |
| `Bio.BCache.LockAndRead` | xv6-public-master/bio.c:95-106 | the returned buffer is locked, valid and holds the cached data, or the disk's |
| `Bio.BCache.BWrite` | xv6-public-master/bio.c:108-116 | exactly one block write; the buffer is clean afterwards |
| `Bio.BCache.BRelse` | xv6-public-master/bio.c:118-141 | drops one reference and moves the buffer to the front with the last one |
| `Coherence.CleanBufferExists` | xv6-public-master/bio.c:78-92 | when they are fewer, some buffer is neither pinned nor held |
| `Coherence.AllTaken` | xv6-public-master/bio.c:78-92 | when pinned blocks and held clean buffers are as many as the buffers, every buffer is one or the other |
| `CacheSteps.AfterPin` | xv6-public-master/log.c:228-231 | pinning makes the buffer's data the pending value of its block |
| `CacheSteps.AfterModify` | xv6-public-master/log.c:204-212 | changed data shows to readers at once if pinned and not before otherwise |
| `CacheSteps.SecondAvailable` | xv6-public-master/log.c:178-190 | a second block can be read while one is held, and others hold theirs, if one of them is pinned and a buffer is to spare, or two are |
| `CacheSteps.FirstAvailable` | xv6-public-master/bio.c:78-92 | a block that is not pinned can be read beside the held buffers exactly when pinned blocks and held buffers do not fill the cache |
| `CacheSteps.OneReaderIsEnough` | xv6-public-master/bio.c:78-92 | NBUF - 1 pinned blocks and one reader: bget of any other block panics |
| `Log.Log.Boot` | xv6-public-master/log.c:53-66 | the empty cache over a disk image agrees with it |
| `Log.Log.BRead` | xv6-public-master/bio.c:95-106 | bread returns the pending value of a logged block and the disk's value otherwise |
| `Log.Log.WriteHead` | xv6-public-master/log.c:101-113 | one block write, after which the on-disk header lists exactly lh; panics exactly when pinned blocks and buffers in use fill the cache |
| `Log.Log.Interfere` | xv6-public-master/file.c:103-107 | any number of steps of readers, each taking a buffer whose lock is free or giving one back, until nobody uses the two blocks that commit waits for: nobody's view and no disk block changes, and every reader's buffer still holds what the log shows for its block |
| `Log.Log.HeadOne` | xv6-public-master/log.c:101-113 | write_head with readers before it: it fails exactly when the pinned blocks and the buffers the readers then hold fill the cache |
| `Log.Log.LogOne` | xv6-public-master/log.c:181-189 | one iteration of write_log with readers before it, with the same exact condition on the buffers they hold |
| `Log.Log.InstallOne` | xv6-public-master/log.c:74-81 | one iteration of install_trans, likewise |
| `Log.Log.WriteLog` | xv6-public-master/log.c:177-190 | log block i gets the pending value of lh[i]; home blocks are not written; it stops exactly at the first block for which the pinned blocks and the buffers that others use at that moment fill the cache, and there no buffer can be recycled |
| `Log.Log.InstallTrans` | xv6-public-master/log.c:69-82 | home block lh[i] gets log block i and is unpinned, in order; the same exact condition at each block, with one pinned block less each time; at boot it always gets through |
| `Log.Log.Commit` | xv6-public-master/log.c:192-202 | while others take and give back buffers between its steps: it gets through whenever the listed blocks and the most buffers that others ever use are fewer than NBUF; otherwise it stops exactly at the first write for which the blocks still pinned and the buffers in use fill the cache, and there no buffer can be recycled; what it wrote is in any case a prefix of the atomic sequence, all of it exactly when it got through; then every home block on disk is what readers saw, and the readers still see it |
| `Log.Log.LogWrite` | xv6-public-master/log.c:213-233 | refuses exactly on a full log; otherwise the block is listed once and pinned with its data pending |
| `Log.Log.ListedWith` | xv6-public-master/log.c:224-230 | absorption: the list gains the block exactly when it was not in it |
| `Log.Log.BRelse` | xv6-public-master/log.c:204-212 | a client that logs before it releases keeps cache, log and disk in agreement |
| `Log.Log.BeginOp` | xv6-public-master/log.c:124-141 | admits exactly when no commit runs and the reservation fits |
| `Log.Log.EndOp` | xv6-public-master/log.c:143-174 | the last operation commits everything readers saw, with the same guarantee and the same exact outcome as commit; the others write nothing |
| `Log.Log.ReadHead` | xv6-public-master/log.c:84-96 | lh becomes the list in the on-disk header |
| `Log.Log.Recover` | xv6-public-master/log.c:115-122 | at boot, the home blocks become the meaning of the crashed disk and the header is emptied |
| `Log.Log.Update` | xv6-public-master/log.c:204-233 | bread, store, log_write, brelse while others use buffers: panics exactly when the block is not cached and no buffer can be recycled, or log_write refuses; otherwise the block is listed once, everybody sees the new contents, and the others' buffers are untouched |
| `Log.PowerFailure` | xv6-public-master/log.c:115-202 | commit, which gets through whenever there is room for the listed blocks and all readers, a power failure after any number of its block writes, boot and recovery on the real cache and header bytes: all home blocks are the pending ones exactly if more than the log blocks were written, and all are the old ones otherwise |
| `LogReservation.StepKeepsReserved` | xv6-public-master/log.c:124-174 | every step keeps logged blocks plus unused budgets within LOGSIZE |
| `LogReservation.RunIsSafe` | xv6-public-master/log.c:143-174 | in every run no operation is active while a commit runs, so "log.committing" is unreachable, and an operation with budget left finds fewer than LOGSIZE blocks logged, so it is never refused when log.size > LOGSIZE |
| `LogReservation.IdleLogAdmits` | xv6-public-master/log.c:128-140 | an idle log is empty and admits any operation |
| `LogReservation.RefusalIffLogTooSmall` | xv6-public-master/log.c:213-221 | some run refuses a budgeted append exactly when log.size <= LOGSIZE |
| `LogReservation.OverrunIffLogTooSmall` | xv6-public-master/log.c:218-231 | some run comes to commit with as many blocks as the log has, or more, exactly when 2 <= log.size <= LOGSIZE: the unlocked check lets two writers past the last free entry |
| `LogReservation.AbsorbingWriteRefused` | xv6-public-master/log.c:218-227 | a full log refuses a block that it already holds |
| `Inodes.BitmapMeaning` | xv6-public-master/fs.c:56-95 | a bitmap bit is set iff the block is metadata or exactly one pointer of one inode leads to it |
| `Inodes.GainInv` | xv6-public-master/fs.c:56-78 | giving a free block to an empty pointer keeps ownership |
| `Inodes.LoseInv` | xv6-public-master/fs.c:81-95 | taking a block from its pointer and clearing its bit keeps ownership |
| `Inodes.AllocatedBits` | xv6-public-master/fs.c:56-78 | setting the bit and zeroing the block change no other bit |
| `Contents.WriteDataBytes` | xv6-public-master/fs.c:496-503 | writing inside one block is a splice of the file's bytes |
| `Contents.SplicedTwice` | xv6-public-master/fs.c:496-503 | consecutive block writes compose to one splice |
| `Contents.UpdatedInv` | xv6-public-master/fs.c:219-236 | iupdate keeps ownership |
| `Contents.UpdatedBytes` | xv6-public-master/fs.c:219-236 | iupdate changes no byte of the file and no pointer to its blocks |
| `Contents.DirectStep` | xv6-public-master/fs.c:377-381 | a new direct block fills exactly that hole and changes no byte of the file |
| `Contents.IndirectStep` | xv6-public-master/fs.c:384-387 | a new indirect block changes no byte and no other pointer |
| `Contents.EntryStep` | xv6-public-master/fs.c:388-396 | a new entry behind the indirect block does the same |
| `FileMap.CostAfter` | xv6-public-master/fs.c:372-400 | what bmap allocates for a range is what it allocates for its first part and then for the rest |
| `FileMap.CostsNothing` | xv6-public-master/fs.c:372-400 | bmap allocates nothing for a range exactly when none of its blocks is missing |
| `FileMap.DenseWrite` | xv6-public-master/fs.c:479-511 | a write that starts within a file without holes leaves none |
| `FileMap.DenseCost` | xv6-public-master/fs.c:450-476 | inside a file without holes nothing is missing, so reading and overwriting never allocate |
| `Truncate.DropDirectStep` | xv6-public-master/fs.c:407-419 | freeing a direct block: it was in use, and ownership holds without it |
| `Truncate.DropEntryStep` | xv6-public-master/fs.c:421-428 | freeing an entry of the indirect block, likewise; an empty entry costs nothing |
| `Truncate.DropIndirectStep` | xv6-public-master/fs.c:429-431 | freeing the indirect block itself, likewise |
| `Truncate.NothingLeft` | xv6-public-master/fs.c:407-435 | after itrunc the inode owns no block |
| `FileSys.Fs.BAlloc` | xv6-public-master/fs.c:56-78 | returns the lowest block whose bit in the free map is clear, fails exactly when there is none; on the bytes: bit b is bit b % 8, lowest first, of byte b % 4096 / 8 of block bmapstart + b / 4096, that byte grows by 2 to the b % 8, block b becomes zeros, and no other byte changes |
| `FileSys.Fs.BFree` | xv6-public-master/fs.c:80-95 | of all blocks exactly this one becomes free: its map byte shrinks by 2 to the b % 8 and no other byte of the disk changes |
| `DiskBytes.SetBitOnBytes` | xv6-public-master/fs.c:66-68 | the test and the setting of a map bit on the byte: bit k is set iff byte k / 8 divided by 2 to the k % 8 is odd; setting a clear one adds that weight |
| `DiskBytes.ClearBitOnBytes` | xv6-public-master/fs.c:87-92 | clearing a set bit takes the weight away |
| `DiskBytes.InUseOnBytes` | xv6-public-master/fs.h:44-48 | a block is in use exactly if its bit is set in the bytes of the map |
| `DiskBytes.FreeUndoesAlloc` | xv6-public-master/fs.c:56-95 | bfree after balloc: every block but the one itself is as before |
| `DiskBytes.SyncedOnBytes` | xv6-public-master/fs.h:29-42 | the record of an inode is current exactly if its 64 bytes hold type and major, minor and nlink, size and addresses in the order of struct dinode |
| `DiskBytes.PointerOnBytes` | xv6-public-master/fs.h:29-36 | every block pointer of an inode, direct or behind the indirect block, on the bytes of the disk |
| `DiskBytes.FileBlockOnBytes` | xv6-public-master/fs.c:372-400 | file block bn is direct address bn, or the word at 4 * (bn - 12) of the indirect block |
| `DiskBytes.ContentOnBytes` | xv6-public-master/fs.c:469-473 | byte k of a file is byte k % 512 of its block k / 512, zero in a hole |
| `FileSys.Fs.BMap` | xv6-public-master/fs.c:372-400 | returns the block of a file block, allocated if missing, with the indirect block if that is missing too: a hole becomes a block of zeros, every byte, pointer and other file stays; fails exactly when fewer blocks are free than it needs; changes only the blocks it logs |
| `FileSys.Fs.WriteLoop` | xv6-public-master/fs.c:496-503 | the block loop splices the source into the file, over blocks and holes, within its budget of logged blocks; it fails exactly when more of the range is missing than is free |
| `FileSys.Fs.IUpdate` | xv6-public-master/fs.c:219-236 | the 64 bytes at inum % 8 * 64 of block inodestart + inum / 8 hold the inode in memory, size at byte 8, addresses from byte 12, low byte first; every other inode's words and every other block stay as they are |
| `FileSys.Fs.WriteI` | xv6-public-master/fs.c:479-511 | refused exactly for an offset past the end or an end past 140 blocks, which includes an overflow; panics exactly when more of the range is missing than is free; otherwise the contents are the splice, size is the maximum, exactly the missing blocks are taken, other files are untouched, and only logged blocks changed, at most the budget |
| `WriteSteps.WroteSynced` | xv6-public-master/fs.c:505-509 | after a write the inode on the disk is current exactly when the file has grown or no pointer of the inode was missing for the range; always so for a file without holes |
| `WriteSteps.WroteTwice` | xv6-public-master/fs.c:479-511 | two writes, the second where the first ended, are one write: bytes, size, holes, pointers and the inode on the disk |
| `FileSys.Fs.ReadI` | xv6-public-master/fs.c:450-476 | returns exactly the slice of the contents, zeros for holes; -1 exactly for a start past the end or an overflow; panics exactly when the range meets a hole and no operation is outstanding or too few blocks are free; the blocks it allocates are logged, no byte, other file or inode record on the disk changes, and nothing at all if there is no hole |
| `FileSys.ReadSynced` | xv6-public-master/fs.c:450-476 | after a read the inode on the disk is current exactly when no pointer of the inode was missing for the range |
| `FileSys.Fs.BMapRead` | xv6-public-master/fs.c:372-400 | bmap for a reader: finds the block, or allocates it exactly when some operation is outstanding and blocks are free |
| `FileSys.Fs.ITrunc` | xv6-public-master/fs.c:402-435 | gives back exactly the inode's blocks; the file is empty and without holes, the inode on the disk is current, other files are untouched, and only logged blocks changed: blocks of the free map and the inode's |
| `WriteSteps.CostBudget` | xv6-public-master/file.c:121-127 | a finished write has logged at most its data blocks, a map block for each new block, the indirect block and the inode's |
| `WriteSteps.ChunkFitsReservation` | xv6-public-master/file.c:121-127 | a chunk of filewrite logs at most MAXOPBLOCKS blocks if it starts at a block boundary or in a block that is there, always so in a file without holes, and never more than one above |
| `WideChunk.WideOk` | xv6-public-master/file.c:121-127 | a sound file system, filled but for one block behind each of five map blocks, and a file in it that has a size and no blocks |
| `WideChunk.ElevenBlocks` | xv6-public-master/file.c:121-127 | any write of a whole chunk of nonzero bytes at the end of that file changes at least MAXOPBLOCKS + 1 blocks: five map blocks, four data blocks, the indirect block and the inode's |
| `WideChunk.OneBlockTooMany` | xv6-public-master/file.c:134-146 | filewrite's chunk succeeds there and logs exactly MAXOPBLOCKS + 1 blocks |
| `FileSys.Fs.WriteChunk` | xv6-public-master/file.c:134-146 | one chunk in one transaction changes at most MAXOPBLOCKS blocks (one more where it starts inside a hole, never in a file without holes), all of them logged and outside the log; the same exact outcomes as writei |
| `FileSys.Fs.FileWrite` | xv6-public-master/file.c:115-156 | returns n exactly when the whole range fits, else -1 with exactly the whole chunks below the limit written; panics exactly when that takes more blocks than are free; the contents are the splice of what was written and the offset stands behind it; between two chunks only logged blocks change |
| `WriteSteps.NextChunk` | xv6-public-master/file.c:129-150 | the next chunk is refused exactly when all that can be written has been written |
| `Contents.FreeExists` | xv6-public-master/fs.c:56-78 | some block is free exactly when the owned ones are fewer than the data blocks |
| `Mkfs.RoundingLeavesHole` | xv6-public-master/mkfs.c:158-163 | from a file without holes the rounding makes a sound file, current on the disk and with the same bytes, whose size is the next whole number of blocks above; it has a hole exactly when the size was one already; only then does reading it all allocate |
| `Mkfs.MarkUsed` | xv6-public-master/mkfs.c:237-252 | the loop of mkfs's balloc marks the used blocks |
| `Mkfs.MarkedOnBytes` | xv6-public-master/mkfs.c:246-248 | a map of n used blocks on the bytes: n / 8 bytes 0xFF, then the low n % 8 bits, then zeros |
| `Mkfs.MkfsMapBytes` | xv6-public-master/mkfs.c:237-252 | the map of an empty file system: seven bytes 0xFF, one 0x07, then zeros |
| `Mkfs.MkfsRootHole` | xv6-public-master/mkfs.c:94-163 | the file system that mkfs makes with a root directory of 32 entries: sound and current on the disk, with a missing second block inside its size |
| `Mkfs.RootEntryForgotten` | xv6-public-master/fs.c:552-580 | a new entry in that directory, found free by readi and written by writei: in memory the directory has it; the inode on the disk is still the one of mkfs, and with it no assignment of owners accounts for all blocks in use |
| `CrashFs.SameHomeSameFile` | xv6-public-master/fs.c:372-400 | ownership, contents, holes and how current the inode's record is depend on home blocks only, not on the log |
| `CrashFs.SyncedMeans` | xv6-public-master/fs.c:288-310 | what ilock reads after a restart is the inode that was in memory exactly when its record was current |
| `CrashFs.HoleWriteForgotten` | xv6-public-master/fs.c:496-509 | a write that fills a missing pointer of the inode without growing the file: the record on the disk is the old one, and with it no assignment of owners accounts for all blocks in use |
| `CrashFs.HoleReadForgotten` | xv6-public-master/fs.c:450-476 | the same for a read that fills a missing pointer of the inode |
| `CrashFs.ReadThenWriteForgotten` | xv6-public-master/fs.c:552-580 | a read that fills a missing pointer and then any write inside the file: the inode on the disk is the old one, and with it no assignment of owners accounts for all blocks in use |
| `CrashFs.CommitIsTheWrite` | xv6-public-master/log.c:69-82 | committing the new contents of the blocks that operations logged, listed in any order, turns the old disk into the disk they left |
| `CrashFs.CommitIsCrashAtomic` | xv6-public-master/log.c:69-202 | operations that changed only logged blocks, committed after any earlier transactions: after any crash and any interrupted recoveries all home blocks are exactly the old or exactly the new ones, by whether the header reached the disk |
| `CrashFs.GroupIsCrashAtomic` | xv6-public-master/log.c:143-174 | several operations on any files in one transaction: after a crash every file sound before the first is as it was, or every file sound after the last is as it is then |
| `CrashFs.ChunksAreCrashAtomic` | xv6-public-master/file.c:115-156 | a crash anywhere in filewrite: the recovered file is sound and has its old bytes with a whole number of chunks spliced in, those before the chunk that was committing, or that one too exactly when its header reached the disk |
| `CrashFs.WriteOrNothing` | xv6-public-master/file.c:129-150 | for the transaction that WriteChunk performs: all home blocks, and so the recovered file, are the old ones or the new ones, the file with the source spliced in |
| `DurableFs.LogBlocks` | xv6-public-master/log.c:204-233 | the changed blocks passed to log_write one by one on top of what the log holds, while others read: always done if there is room for all listed blocks and all readers, and undone only where no buffer can be recycled; the list gains exactly those blocks and readers see the new disk |
| `DurableFs.WritePowerFailure` | xv6-public-master/file.c:129-150 | a chunk of filewrite as the last operation of a transaction, through cache and log, a power failure after k block writes of the commit, boot and recovery: with room for the logged blocks and all readers the commit sends all its writes; any file of the last committed disk is as it was there while at most the blocks logged by the whole transaction were written, and from there on the disk has the new file and all other changes of the transaction |
| `Heap.InsertSorted` | xv6-public-master/umalloc.c:24-44 | inserting a freed block and coalescing keeps the ring sorted with no two blocks touching |
| `Heap.InsertUnits` | xv6-public-master/umalloc.c:33-42 | the free units afterwards are the old ones and those of the freed block |
| `Heap.FreedChained` | xv6-public-master/umalloc.c:33-42 | the four-way pointer surgery leaves the headers chained as the new ring |
| `Heap.FindSlot` | xv6-public-master/umalloc.c:29-32 | the circular walk stops at the one place where the block belongs |
| `Heap.Lap` | xv6-public-master/umalloc.c:74-89 | one lap finds the first large enough block in search order, or there is none in the whole ring |
| `Heap.TakeWhole` | xv6-public-master/umalloc.c:76-77 | an exact fit leaves the ring; all units are accounted for |
| `Heap.TakeTail` | xv6-public-master/umalloc.c:78-82 | the tail of a larger block is handed out; all units are accounted for |
| `Heap.UnitsLargeEnough` | xv6-public-master/umalloc.c:69 | the units hold the bytes and a header exactly below the 32-bit wrap-around |
| `Heap.SbrkArgExact` | xv6-public-master/umalloc.c:46-55 | the sbrk argument is the byte size of the units exactly below 2^28 units |
| `Heap.Allocator.Free` | xv6-public-master/umalloc.c:24-44 | one sorted, coalesced ring; the block is no longer live; no other block is touched; freep is the last block below it |
| `Heap.Allocator.Morecore` | xv6-public-master/umalloc.c:46-61 | a fresh region joins the free units, or nothing changes |
| `Heap.Allocator.Malloc` | xv6-public-master/umalloc.c:63-90 | next fit: the tail of the first large enough block from freep on, and freep the block before it; at most one morecore; a live block of exactly the asked units, apart from all others; total units are those obtained |
| `Heap.FreeIsTheRest` | xv6-public-master/umalloc.c:24-90 | a unit is free iff it was obtained and is not in a live block |
| `Heap.SameUnitsSameRing` | xv6-public-master/umalloc.c:24-90 | a sorted, coalesced ring is determined by its units |
| `Heap.FreeListIsCanonical` | xv6-public-master/umalloc.c:24-90 | the free list depends only on live blocks and memory obtained, not on the order of calls |
| `Heap.MallocThenFree` | xv6-public-master/umalloc.c:24-90 | when no new memory is needed, freeing what was just allocated restores the free list |
| `PageTables.UserPagesDistinct` | xv6-public-master/vm.c:221-249 | no page is mapped at two user addresses, in one address space or in two |
| `PageTables.ForeignMappings` | xv6-public-master/vm.c:221-298 | pages outside an address space unchanged means every other address space maps and holds what it did |
| `PageTables.AddTableInv` | xv6-public-master/vm.c:45-53 | entering a zeroed table keeps ownership |
| `PageTables.WithTableEntries` | xv6-public-master/vm.c:45-53 | a new table changes no translation |
| `PageTables.MapInv` | xv6-public-master/vm.c:71-73 | storing an entry gives the page to it and keeps ownership |
| `PageTables.UnmapInv` | xv6-public-master/vm.c:269-276 | clearing an entry takes exactly its page back |
| `Vm.Machine.constructor` | xv6-public-master/kalloc.c:31-37 | before kinit1 nothing is free |
| `Vm.Machine.FreeRange` | xv6-public-master/kalloc.c:46-53 | exactly the whole pages inside the byte range are freed |
| `Vm.Machine.KFree` | xv6-public-master/kalloc.c:55-77 | the page, filled with junk, is first on a free list without repeats |
| `Vm.Machine.KAlloc` | xv6-public-master/kalloc.c:79-95 | the first free page, or 0 exactly when none is free |
| `Vm.Machine.Walk` | xv6-public-master/vm.c:32-55 | finds or makes the table; fails exactly when there is none and none may or can be made; no translation changes |
| `Vm.Machine.MapPages` | xv6-public-master/vm.c:57-80 | maps the touched pages in order; fails exactly when fewer pages are free than the range needs tables, and then a prefix is mapped and nothing else changes |
| `PageBudget.CostStep` | xv6-public-master/vm.c:41-55 | one more page costs a table exactly when its directory slot is empty by then |
| `Vm.KernelCost` | xv6-public-master/vm.c:105-136 | each line of the kernel map costs exactly the tables behind those of the lines before |
| `Vm.KernelStep` | xv6-public-master/vm.c:105-115 | each line of the kernel map fills exactly its range |
| `Vm.Machine.SetupKvm` | xv6-public-master/vm.c:117-136 | succeeds exactly with 65 free pages and takes as many; the kernel half is physical memory at KERNBASE with read-only text and the devices in place; on failure every page is back |
| `Vm.NoTable` | xv6-public-master/vm.c:266-268 | a missing table means no entry up to the next table, which is what the jump skips |
| `Vm.SkipStep` | xv6-public-master/vm.c:265-269 | absent entries need no work |
| `Vm.ClearStep` | xv6-public-master/vm.c:269-276 | a present entry loses its page and nothing else changes |
| `Vm.Machine.DeallocUvm` | xv6-public-master/vm.c:251-279 | has, page by page, the effect of visiting every page of the range |
| `Vm.Machine.FreeSlot` | xv6-public-master/vm.c:291-296 | frees exactly the table of one directory slot |
| `Vm.Machine.FreeVm` | xv6-public-master/vm.c:281-298 | every page of the address space is back on the free list once; no other page is touched |
| `Vm.Machine.AllocUvm` | xv6-public-master/vm.c:219-249 | succeeds exactly when there are pages for the range and for its missing tables; then every page of the range is new, zeroed and mapped, else the mapping and every data page are as before |
| `Vm.GrownUndone` | xv6-public-master/vm.c:235-246 | deallocating after a partial growth restores the mapping; at most page tables stay |
| `Vm.Machine.CopyUvm` | xv6-public-master/vm.c:313-345 | there is a child exactly when there are pages for the copies, their tables and the kernel half, and it takes exactly those; it has every page with equal contents and flags; else the used pages are those before the call |
| `Vm.CopyIsIsolated` | xv6-public-master/vm.c:313-345 | the child's pages are none of the parent's, and the parent is unchanged |
| `Vm.Undone` | xv6-public-master/vm.c:342-344 | giving back a new address space leads to exactly the pages before it |
| `Mmu.WalkIsPte` | xv6-public-master/mmu.h:66-101 | the processor's walk, ten bits of directory index, ten of table index, twelve of offset, finds for every address exactly the entry that the model of vm.c speaks of, with its rights |
| `Mmu.MappedAddresses` | xv6-public-master/vm.c:57-80 | after mappages each address of the range leads to the byte at the same distance from pa, with the given rights; every other address is as before |
| `Mmu.GrownAddresses` | xv6-public-master/vm.c:219-249 | after allocuvm the new addresses are readable and writable for the user and hold zeros; the others are as before |
| `Mmu.ReleasedAddresses` | xv6-public-master/vm.c:251-279 | after deallocuvm the addresses of the range fault; the others are as before |
| `Mmu.CopiedAddresses` | xv6-public-master/vm.c:313-345 | the child has at every address below the size the parent's rights and reads what the parent reads; above it has the kernel's addresses only |
| `Mmu.KernelAddresses` | xv6-public-master/vm.c:105-136 | every address after setupkvm: physical memory at 0x80000000 with read-only text, devices in place, all else faults, nothing for the user |
| `Mmu.NothingShared` | xv6-public-master/vm.c:219-345 | no two user addresses, of one process or of two, lead to the same byte |
| `SleepLock.NextKeeps` | xv6-public-master/sleeplock.c:22-42 | every micro-step of acquire, release, sleep, wakeup, kill and dispatch keeps the invariant |
| `SleepLock.RunKeeps` | xv6-public-master/proc.c:712-794 | so does every run of any number of processes |
| `SleepLock.MutualExclusion` | xv6-public-master/sleeplock.c:22-42 | at most one process is in the critical section, and the lock carries its pid |
| `SleepLock.NoLostWakeup` | xv6-public-master/proc.c:714-749 | with the inner spinlock free and the lock not held, nobody sleeps on it or is about to |
| `SleepLock.HoldingSleepIsExact` | xv6-public-master/sleeplock.c:44-53 | holdingsleep is true exactly for the owner |
| `SleepLock.AsleepExactly` | xv6-public-master/proc.c:712-794 | in every run a process sleeps exactly when it marked itself and no wakeup and no kill of it came since |
| `SleepLock.CanGoMeans` | xv6-public-master/sleeplock.c:22-42 | which program points can take a step, exactly |
| `SleepLock.NoDeadlock` | xv6-public-master/sleeplock.c:22-42 | in every run, when no process can take a step and none can be dispatched, everybody is outside, in the critical section or asleep, and nobody is asleep unless somebody is in the critical section |
| `ProcTable.AllocKeeps` | xv6-public-master/proc.c:128-162 | taking a slot with a new pid keeps the tree |
| `ProcTable.EmbryoKeeps` | xv6-public-master/proc.c:263-304 | fork's writes to its slot, and giving it up, keep the tree |
| `ProcTable.ExitKeeps` | xv6-public-master/proc.c:335-351 | exit hands over its children, wakes whoever must see a zombie, and keeps the tree and the history |
| `ProcTable.ReapKeeps` | xv6-public-master/proc.c:372-385 | reaping a zombie child keeps them |
| `ProcTable.CalmKeeps` | xv6-public-master/proc.c:754-794 | waking, killing, dispatching and sleeping keep them |
| `ProcTable.StepKeeps` | xv6-public-master/proc.c:128-397 | every step keeps the invariant |
| `ProcTable.RunKeeps` | xv6-public-master/proc.c:128-397 | every table of every run from boot satisfies it |
| `ProcTable.StepEffect` | xv6-public-master/proc.c:128-397 | what every step does to every field of every slot: allocation, the writes of fork, dispatch, sleep, wakeup, kill, exit, wait |
| `ProcTable.ExitEffect` | xv6-public-master/proc.c:335-351 | exit, slot by slot: every child gets init as its parent; of the sleepers exactly those in wait that are the parent, or init if a zombie child is handed over, become runnable |
| `ProcTable.AsleepExactly` | xv6-public-master/proc.c:712-794 | in every run a process sleeps on a channel exactly when it went to sleep there and since then there was no kill of it, no wakeup of the channel and, in wait, no exit that concerns it |
| `ProcTable.KilledIsAwake` | xv6-public-master/proc.c:775-794 | in every run a slot hit by kill is not asleep until a later sleep or wait of its own |
| `ProcTable.ReachesInit` | xv6-public-master/proc.c:250-397 | from every process the parent pointers lead to init over ever smaller pids |
| `ProcTable.TreeIsSound` | xv6-public-master/proc.c:312-397 | no parent pointer leads to a zombie or an unused slot, and no zombie's parent is asleep in wait |
| `ProcTable.ReapedOnce` | xv6-public-master/proc.c:357-386 | wait returns a pid at most once, after its exit, and no slot keeps it |
| `ProcTable.KillZeroReachesNextChild` | xv6-public-master/proc.c:776-794 | kill(0) marks an unused slot and the next process in it starts killed |
| `ProcTable.StalePidReachesNextChild` | xv6-public-master/proc.c:263-268 | so does kill with the pid of a fork that failed |
| `ProcTable.KilledForkReachesNextChild` | xv6-public-master/proc.c:263-268 | so does a kill of a fork that then fails |
| `ProcTable.KillHitsProcessExactly` | xv6-public-master/proc.c:776-794 | kill marks a process exactly when one has the pid, otherwise an unused slot |
| `ProcTable.StalePidExactly` | xv6-public-master/proc.c:263-268 | in every run an unused slot keeps a pid exactly when a fork in it was abandoned and no later one took or cleared it |
| `ProcTable.KilledExactly` | xv6-public-master/proc.c:372-385 | in every run a slot is marked killed exactly when kill hit it since it was last reaped |
| `ProcTable.BornKilledExactly` | xv6-public-master/proc.c:128-162 | a new process starts killed exactly when kill hit its slot since the last reaping, and then before any process had started in it |
| `ProcLoops.PTable.Wakeup1` | xv6-public-master/proc.c:754-762 | exactly the sleepers on the channel become runnable; no other field of any slot changes |
| `ProcLoops.PTable.AllocProc` | xv6-public-master/proc.c:128-162 | the scan takes the first unused slot, which becomes an embryo with the next pid; -1 exactly when there is none |
| `ProcLoops.PTable.StartChild` | xv6-public-master/proc.c:269-306 | the child gets its parent and becomes runnable; fork returns its pid |
| `ProcLoops.PTable.AbandonEmbryo` | xv6-public-master/proc.c:263-268 | a failed fork gives the slot back |
| `ProcLoops.PTable.HandOver` | xv6-public-master/proc.c:340-347 | the loop gives every child to init and wakes init iff one of them is a zombie |
| `ProcLoops.PTable.ExitProc` | xv6-public-master/proc.c:335-351 | the loops of exit perform the exit step, slot by slot |
| `ProcLoops.PTable.WaitOnce` | xv6-public-master/proc.c:366-396 | reaps the first zombie child; gives up exactly without children or when killed; sleeps otherwise |
| `ProcLoops.PTable.Kill` | xv6-public-master/proc.c:776-794 | the first slot with the pid is marked and not left asleep: runnable exactly if it was asleep or runnable, else in its old state; its pid, parent and channel and every other slot stay; fails exactly when no slot has the pid |
| `Scheduler.GetsTurn` | xv6-public-master/proc.c:440-466 | round_robin runs every waiting process of level 1 and leaves the other waiting ones alone |
| `Scheduler.TurnsInOrder` | xv6-public-master/proc.c:440-466 | the turns of a round are taken in slot order, each process at most once |
| `Scheduler.ServedIsBest` | xv6-public-master/proc.c:412-438 | the level that the iteration of the specification serves is the smallest at which somebody waits |
| `Scheduler.WaitedIsBounded` | xv6-public-master/proc.c:412-438 | in every run waited stays below MAX_WAITING_TIME, and is not negative at levels 2 and 3 |
| `Scheduler.WaitOrRun` | xv6-public-master/proc.c:630-653 | an iteration runs a waiting process exactly if it is of level 1 or of age; any other waits exactly one longer |
| `Scheduler.BoundedWaiting` | xv6-public-master/proc.c:407-466 | a runnable process runs in fewer than MAX_WAITING_TIME - waited and fewer than MAX_WAITING_TIME iterations, and in none before |
| `Scheduler.RunsExactlyThen` | xv6-public-master/proc.c:407-466 | the iteration in which a waiting process runs, exactly: the next at level 1, the one in which it comes of age at levels 2 and 3 |
| `Scheduler.RunBoundedWaiting` | xv6-public-master/proc.c:630-653 | in every state of every run, whoever waits runs within MAX_WAITING_TIME iterations |
| `Scheduler.AgedTurnIsCharged` | xv6-public-master/proc.c:412-466 | a process that comes of age ends its turn with waited at -1 |
| `Scheduler.Cpu.LevelFinder` | xv6-public-master/proc.c:412-438 | whoever waits has waited one longer, and is at level 1 with 0 once of age; returns 4 exactly when nobody is runnable, otherwise a level at which somebody is, and nobody at a smaller one |
| `Scheduler.Cpu.RoundRobinLoop` | xv6-public-master/proc.c:440-466 | the table-scanning loop is the round-robin of the specification |
| `Scheduler.Cpu.FindWinner` | xv6-public-master/proc.c:548-572 | the winner is the first waiting level-2 process at which the tickets reach the draw; nobody exactly when they never do |
| `Scheduler.WinsItsTickets` | xv6-public-master/proc.c:548-572 | of the draws from 1 to the number of tickets a waiting level-2 process wins exactly as many as it has tickets |
| `Scheduler.Cpu.DispatchChosen` | xv6-public-master/proc.c:602-626 | dispatches the chosen process exactly when it is runnable at level 1 |
| `Scheduler.Cpu.Lottery` | xv6-public-master/proc.c:590-628 | chooses by the draw and dispatches nobody |
| `Scheduler.Cpu.Bjf` | xv6-public-master/proc.c:488-519 | dispatches nobody |
| `Scheduler.Cpu.Iteration` | xv6-public-master/proc.c:636-652 | the loop body is the iteration of the specification; the round robin, the draw and the ranking are used exactly when level 1, 2 and 3 is the best level at which somebody waits after aging |
| `Pipe.StepKeepsFifo` | xv6-public-master/pipe.c:59-121 | every section keeps bytes taken plus bytes buffered equal to bytes stored, in order, and sleeping writers before a full pipe |
| `Pipe.RunIsFifo` | xv6-public-master/pipe.c:59-121 | so does every interleaving |
| `Pipe.WriteSectionWrote` | xv6-public-master/pipe.c:78-98 | the write section on the bytes, with its outcome and who sleeps |
| `Pipe.ReadSectionTook` | xv6-public-master/pipe.c:100-121 | the read section, likewise |
| `Pipe.ReadsDeliverWrites` | xv6-public-master/pipe.c:78-121 | in every run what all reads returned, joined, is a prefix of what all writes accepted, joined, and the rest is in the buffer |
| `Pipe.LostWakeupExactly` | xv6-public-master/pipe.c:85-92 | a step leaves a reader asleep on data exactly when a killed writer with more than PIPESIZE bytes meets a sleeping reader |
| `Pipe.NoLostWakeup` | xv6-public-master/pipe.c:85-121 | without such a step no reader sleeps on a pipe that has data or has lost its write end |
| `Pipe.LostWakeupHappens` | xv6-public-master/pipe.c:86-89 | a run in which a reader sleeps on a full pipe |
| `Pipe.Ring.Counters` | xv6-public-master/pipe.c:85-106 | across the 32-bit wrap-around the counters say how full the ring is |
| `Pipe.Ring.PipeWrite` | xv6-public-master/pipe.c:78-98 | the loop over the ring is the write section of the queue: the first k bytes go in; it returns n exactly when k is n, and otherwise the pipe is full and it fails if nobody will read or it is killed, and sleeps if not; readers are woken unless it fails |
| `Pipe.Ring.PipeRead` | xv6-public-master/pipe.c:100-121 | the loop over the ring is the read section of the queue: what the caller gets is what came off the front, at most n bytes and fewer only if the pipe is then empty; it waits only for an empty pipe with a write end |
| `Pipe.Ring.PipeClose` | xv6-public-master/pipe.c:59-75 | closes one end, wakes who slept for it, leaves the other end and the bytes, frees when both are closed |
| `ShellGrammar.Lex` | xv6-public-master/sh.c:265-308 | a token makes progress unless the line ended, and a word runs up to a delimiter |
| `ShellTheorems.LineWords` | xv6-public-master/sh.c:344-446 | every span of a parsed command is a whole word of the line |
| `ShellGrammar.Characters` | xv6-public-master/sh.c:262-263 | the white space and the symbols |
| `ShellCommands.SimpleCommandParses` | xv6-public-master/sh.c:374-446 | arguments and redirections in any order, with any white space: arguments in order, redirections wrapped in order with their modes, the last outermost |
| `ShellCommands.SimpleParses` | xv6-public-master/sh.c:415-446 | the same inside any line, before the end, a bar, a parenthesis, an ampersand or a semicolon |
| `ShellLines.StageParses` | xv6-public-master/sh.c:399-446 | a simple command or a parenthesised line with redirections behind it, inside any line |
| `ShellLines.PipelineParses` | xv6-public-master/sh.c:361-372 | a chain of bars groups to the right |
| `ShellLines.LineParses` | xv6-public-master/sh.c:344-359 | pipelines with any number of ampersands, separated by semicolons, inside any line or group: the chain groups to the right, and bars and ampersands bind tighter |
| `ShellLines.CommandParses` | xv6-public-master/sh.c:327-446 | parsing the text of any line of the grammar, nested in any way and with any white space, consumes it all and returns the command it stands for |
| `ShellLines.BarCommands` | xv6-public-master/sh.c:361-372 | a bar between two simple commands gives the pipe of the two |
| `ShellLines.SemiCommands` | xv6-public-master/sh.c:344-359 | a semicolon between them gives the list of the two |
| `ShellLines.BackCommand` | xv6-public-master/sh.c:349-352 | an ampersand behind one gives the command in the background |
| `ShellLines.BarThenSemi` | xv6-public-master/sh.c:344-372 | two commands with a bar, then a semicolon and a third: the list of the pipe and the third |
| `ShellLines.NothingBehindBack` | xv6-public-master/sh.c:327-359 | a command behind an ampersand is refused |
| `ShellLanguage.AcceptedIsMeant` | xv6-public-master/sh.c:327-446 | every line that the parser accepts is the text of a line of the grammar, and the command returned is the one it stands for |
| `ShellLanguage.AcceptsExactly` | xv6-public-master/sh.c:327-446 | the parser accepts exactly the texts of the lines of the grammar |
| `ShellTrees.RoundTrip` | xv6-public-master/sh.c:327-446 | parsing the fully parenthesised print of any well-formed tree returns it |
| `ShellCommands.TooManyArgs` | xv6-public-master/sh.c:436-440 | the tenth argument is refused |
| `Shell.Parser.Peek` | xv6-public-master/sh.c:310-320 | skips white space and looks at one character |
| `Shell.Parser.GetToken` | xv6-public-master/sh.c:265-308 | returns the token of the grammar and moves the cursor behind it |
| `Shell.Parser.ParseRedirections` | xv6-public-master/sh.c:374-397 | collects the redirections of the grammar; fails exactly without a file |
| `Shell.Parser.Simple` | xv6-public-master/sh.c:415-446 | parseexec is the grammar's, with the cursor behind it |
| `Shell.Parser.Arguments` | xv6-public-master/sh.c:429-445 | its loop stays within argv and agrees with the grammar, stopping at the end or before a bar, a parenthesis, an ampersand or a semicolon as the grammar does |
| `Shell.Parser.Block` | xv6-public-master/sh.c:399-413 | parseblock is the grammar's |
| `Shell.Parser.Pipeline` | xv6-public-master/sh.c:361-372 | parsepipe is the grammar's |
| `Shell.Parser.Line` | xv6-public-master/sh.c:344-359 | parseline is the grammar's; the mutual recursion ends on every line |
| `Shell.Parser.Command` | xv6-public-master/sh.c:327-339 | refuses exactly what the grammar refuses, leftovers included |
| `Shell.NulTerminate` | xv6-public-master/sh.c:448-493 | writes NUL at the end of every span and nowhere else |
| `Shell.WordsBecomeStrings` | xv6-public-master/sh.c:448-493 | every argument and file string is exactly its word: no terminator falls into another word |
| `Shell.ParseCommand` | xv6-public-master/sh.c:327-342 | the command of the grammar, with every word a C string in the buffer |
| `Grep.PrefixStar` | xv6-public-master/grep.c:98-106 | a starred atom takes any number of fitting characters |
| `Grep.PlainPattern` | xv6-public-master/grep.c:72-96 | a pattern without star: a line matches exactly if it contains it, or starts, ends or starts and ends with it where anchored; a dot stands for any character |
| `Grep.StarredPattern` | xv6-public-master/grep.c:98-106 | a character and a star: any number of copies of it, of anything if it is a dot, and then the rest |
| `Grep.MatchHere` | xv6-public-master/grep.c:84-96 | true iff some prefix of the text is in the pattern's language, all of it after a final '$' |
| `Grep.MatchStar` | xv6-public-master/grep.c:98-106 | the same for a pattern that starts with a starred character |
| `Grep.Match` | xv6-public-master/grep.c:72-82 | true iff some substring, or prefix after '^', is in the language |

## Left out

- Log.Log.LogWrite: checks the limits and appends in one step, as if `log.lock` were held for both, so that fewer blocks are listed than the log has; what two writers between check and append can do is in `LogReservation`, and the commit and crash theorems are for runs without that overrun, which are all runs, on a log of at least one block, exactly when `log.size` is not between 2 and LOGSIZE.
- Log.Log.Interfere: how many buffers readers use at a time is bounded by a parameter of the log. A reader takes a buffer in one step, when its lock is free, and commit goes on when nobody uses the block it wants; processes that have a reference and wait for the lock are not modelled, and a reader that finds no buffer panics by itself.
- DurableFs.WritePowerFailure: logs each changed block once, with its final contents, after writei; the several log_writes of one block inside writei are absorbed. No other operation is between its begin_op and end_op meanwhile.
- One device, one log; `initlog`'s superblock read is a parameter.
- Device inodes in `readi` and `writei`, the inode cache (`iget`, `iput`, `ilock`, `ialloc`), directories and path names: they would add mostly easy members on top of the file contents.
- FileSys.Fs.ReadI: the number of outstanding operations stays the same during the read, and a full log, on which log_write would panic too, is not modelled.
- FileSys.Fs.BMapRead: does not model the panic of log_write on a full log either.
- Interference between the chunks of one `filewrite`: each chunk starts from the file the previous one left.
- FileSys.Fs.FileWrite: does not model a file opened read-only or a pipe, which return before the inode is reached.
- Heap.Allocator.Malloc: when nothing fits and `sbrk` grants the request, the request is below 2^28 units; above that `sbrk` is asked for something else (`Heap.SbrkArgExact`).
- Vm.Machine.MapPages: a user range of more than one page is not covered, because every caller maps user pages one at a time.
- Vm.Machine.DeallocUvm: sizes above KERNBASE are not covered; near the top of the address space the jump would wrap around.
- Vm.Machine.KFree: freeing a page that is already free is outside the model; kfree does not detect it.
- `loaduvm`, `inituvm`, `clearpteu`, `copyout` and the hardware side of address spaces (`switchuvm`, TLB).
- ProcLoops.PTable.StartChild: covers parent, state and pid; the copied registers and files, and the child's level and tickets, are not modelled.
- Pipe.NoLostWakeup: takes as given that a section under p->lock is one step and that an end is not closed by a process asleep on it; the hand-off inside sleep is proved for sleep locks.
- `level_change`, `copy_proc`, `trace_handler` and the semaphores write process slots outside ptable.lock; the process and scheduler theorems are for runs without them.
- Scheduler.Cpu.Bjf: the floating-point ranking is a parameter; any level-3 choice gives the same result.
- Scheduler.BoundedWaiting: is for one CPU, where nobody else changes a process that waits for it.
- Overflow of `nextpid` and of `waited`.
- `grep`'s line buffer: it drops a partial line when the buffer holds no newline.
- `runcmd`, `exec`, system call plumbing, console, drivers, boot code and the other user programs.
