# Verified models of xv6's hard parts

This project models the parts of this xv6 for RISC-V whose correctness rests on
invariants rather than on single statements, and proves those invariants. Each
file is a module.

- `Blocks`, `Collections`: blocks as bytes, words and bitmap bits; facts about sequences, sets and remainders.
- `LogRecovery`, `BufferCache`, `Log`: the redo log over the buffer cache. The disk writes one block
  at a time and keeps a trace of every image it has held, so that a crash may be placed at any write.
  Cache and log together are shown to be one plain block array, and every image in the trace to
  recover to the home blocks the log's history says.
- `LogAdmission`, `CommitProtocol`, `CommitProgress`: group commit as a protocol of operations that enter,
  log and leave, and commit's rounds interleaved with readers: what every interleaving keeps, that commit
  can finish, and that the methods of the log take the protocol's steps.
- `DiskFormat`: inodes, file blocks, free map and log header by the position of their bytes, against which
  the modules around it are held.
- `FileLayout`, `FileSystem`: the free bitmap, the direct and indirect block map, reading, writing and
  truncating, over a partition of the disk's blocks among their owners.
- `WriteLogs`, `WriteLimit`: exactly what a write allocates and logs, why a chunk of filewrite fits its
  reservation, and a volume on which it uses all of it.
- `CrashSafety`: a chunk of filewrite through the log to the disk, and what the inode blocks and data
  blocks show after a crash in commit and any number of recoveries.
- `PageTable`, `VirtualMemory`: three-level Sv39 tables (section 4.4 of the RISC-V Privileged
  Architecture, version 1.12) against the flat map they stand for, the page allocator, growing,
  shrinking, copying and freeing address spaces, and copying bytes in and out.
- `UserMemory`: the tables as the hardware walks them, exec's stack with its guard page, and fork's copy.
- `Heap`: the user-level storage allocator.
- `Virtio`, `VirtioTransfer`: the block driver's descriptors and rings (sections 2.6 and 5.2 of Virtio 1.1) with
  the device as the other party, and the blocks that requests transfer.
- `SleepLock`, `SleepLockProgress`: sleep, wakeup and sleep locks, step by step, for any number of processes.
- `Process`, `Random`, `Lottery`, `Mlfq`, `MlfqQuotas`: the two added scheduling policies and the generator one draws from.
- `Pipe`, `Regex`: the pipe's ring, and grep's matcher against a definition of the pattern language.

State that the source updates in place is kept in classes. Where such a class would be hard to
reason about directly, its state is also a value (a `View`, a `Shape`, a `Disk`, a `State`), the
lemmas are about steps on that value, and each method is shown to take the step. A call that panics
in the source has the condition for not panicking as a requirement, and every caller in the model is
shown to meet it.

Some statements one might expect turn out to hold only under a condition, which is proved to be
exact:

- A log region larger than LOGSIZE does not rule out the panic "too big a transaction": log_write
  tests for space before it looks for the block among those already logged
  (`LogAdmission.RelogPanics`). If no operation logs a block twice, the panic can be reached if and
  only if the region has at most LOGSIZE blocks (`LogAdmission.TooBigReachableIff`); mkfs makes it
  exactly LOGSIZE.
- bget succeeds during commit for a block no one refers to if and only if fewer than NBUF blocks are
  referenced (`Log.WriteAheadLog.CommitFits`), which with no other holder means lh.n < NBUF
  (`Log.WriteAheadLog.CommitReadyIff`).
- A chunk of filewrite logs more than MAXOPBLOCKS blocks if and only if it spans four, they and the
  indirect block one of them needs are missing, and the five lowest free blocks lie in five bitmap
  blocks (`WriteLimit.WriteCounted`, by `WriteLimit.ChunkExceedsIff`). The block
  map alone rules that out if and only if at most three blocks are touched or one of them is present
  (`WriteLogs.ChunkFitsIff`), which is so on every hole-free file. Such a file may use the limit up
  (`WriteLimit.ChunkAtLimit`), and one with a hole may exceed it (`WriteLimit.HoleOverLimit`).
- brelse keeps cache and disk coherent if and only if the change is on the disk or someone else has a
  reference (`BufferCache.ReleaseCoherentIff`, with the change lost otherwise in
  `BufferCache.ReleaseLosesIff`).
- The multi-level queues survive the reaping of a slot if and only if it is not queued
  (`Mlfq.ReapKeepsInvIff`, with a run in `Mlfq.ReuseDoubles`).
- Putting the chosen process back in front stores past the queue's array if and only if all NPROC
  processes are at one level, queued or runnable, and that queue is empty or has a runnable head
  (`Mlfq.Scheduler.Schedule`, with a run in `Mlfq.QueueFills`).
- readi leaves the inode blocks up to date if and only if no address of the inode changes; reading a
  hole allocates without iupdate (`FileSystem.Volume.Readi`, by `FileLayout.OnDiskIff`).
- A process can win the lottery if and only if it is runnable with a ticket and no runnable process
  further on in the table with as many tickets started earlier (`Lottery.CanWinIff`).
- A process is moved down when its quota is used up, except that a tick which finds it in the kernel
  only counts; its ticks less the late ones fix its level (`MlfqQuotas.QuotasKept`), and a process that is
  in the kernel at every tick is never moved (`MlfqQuotas.KernelStays`).
- Every winning ticket is drawn sooner or later if and only if the total is at most 32768
  (`Lottery.DrawReachesAll`).
- sbrk gets the size morecore computes if and only if it is below 2^31 bytes (`Heap.RequestFits`).

## Model

| member | source | states |
|---|---|---|
| `Blocks.PutWord` | initial-xv6/src/kernel/log.c:103-114 | storing the i-th 32-bit word of a block makes that word read back and leaves every other word of the block as it was |
| `Blocks.SetBit` | initial-xv6/src/kernel/fs.c:75-77 | setting a bitmap bit sets that bit and no other of the 8192 in the block |
| `Blocks.ClearBit` | initial-xv6/src/kernel/fs.c:98-102 | clearing a set bitmap bit clears that bit and no other of the block |
| `LogRecovery.InstalledKeepsLog` | initial-xv6/src/kernel/log.c:69-83 | installing any number of entries leaves the log region, and so the header, as it was |
| `LogRecovery.ReinstallIdempotent` | initial-xv6/src/kernel/log.c:69-83 | an installation stopped after any number of entries still recovers to the same home blocks |
| `LogRecovery.SealedRecovers` | initial-xv6/src/kernel/log.c:117-123 | a disk whose slots hold the entries' new contents, and which differs from the new contents only at entries, recovers to the new contents |
| `LogRecovery.StopRecovers` | initial-xv6/src/kernel/log.c:117-123 | a stop anywhere in recovery, after it included, leaves a disk that recovers to the same home blocks |
| `LogRecovery.RepeatedCrashesRecover` | initial-xv6/src/kernel/log.c:117-123 | recovery cut short any number of times in a row: the last image still recovers to the home blocks the first one would |
| `BufferCache.SlotUnique` | initial-xv6/src/kernel/bio.c:66-87 | at most one buffer caches a block of the device |
| `BufferCache.BufChanged` | initial-xv6/src/kernel/bio.c:59-151 | a change to one buffer in place changes what is seen of its own block only |
| `BufferCache.BufRecycled` | initial-xv6/src/kernel/bio.c:77-82 | recycling an unreferenced buffer for a block that is not cached hides no contents of any block |
| `BufferCache.RoomLeft` | initial-xv6/src/kernel/bio.c:77-88 | while fewer blocks are referenced than there are buffers, some buffer is unreferenced |
| `BufferCache.NoRoom` | initial-xv6/src/kernel/bio.c:77-88 | with as many referenced blocks as buffers, every buffer is referenced and no further block is cached |
| `BufferCache.Unlink` | initial-xv6/src/kernel/bio.c:128-129 | taking a buffer out of the circular list leaves a well-formed doubly linked circle of the others |
| `BufferCache.PushFront` | initial-xv6/src/kernel/bio.c:130-133 | linking a buffer in behind the head leaves a well-formed circle with it in front |
| `BufferCache.MovedToFrontPermutes` | initial-xv6/src/kernel/bio.c:117-137 | the buffer moved comes first and the others keep their order; none is lost or doubled |
| `BufferCache.MovedLinked` | initial-xv6/src/kernel/bio.c:126-134 | the six stores of brelse turn one circle of all buffers into another with the entry moved to the front |
| `BufferCache.ReleaseCoherentIff` | initial-xv6/src/kernel/bio.c:117-137 | brelse keeps cache and disk coherent if and only if the buffer agrees with the disk or has another reference |
| `BufferCache.ReleaseLosesIff` | initial-xv6/src/kernel/bio.c:59-137 | a change released with neither is lost once bget recycles the buffer, and only then |
| `BufferCache.Cache.constructor` | initial-xv6/src/kernel/bio.c:37-53 | all buffers start as device 0, block 0, on one circular list; what clients see is the disk |
| `BufferCache.LinkAll` | initial-xv6/src/kernel/bio.c:42-52 | binit links all buffers on one circle, the last one pushed in front |
| `BufferCache.Cache.Get` | initial-xv6/src/kernel/bio.c:59-89 | a reference to the buffer of the block: the one caching it, else the least recently used unreferenced one; -1, where the source panics, exactly when there is neither |
| `BufferCache.Cache.Recycle` | initial-xv6/src/kernel/bio.c:77-88 | the buffer recycled is the unreferenced one nearest the back of the list, now caching the block with one reference |
| `BufferCache.Cache.Find` | initial-xv6/src/kernel/bio.c:66-73 | the forward scan finds the buffer caching a block, or that there is none |
| `BufferCache.Cache.LeastRecent` | initial-xv6/src/kernel/bio.c:77-87 | the backward scan finds the unreferenced buffer furthest from the front, or that all are referenced |
| `BufferCache.Cache.Read` | initial-xv6/src/kernel/bio.c:93-103 | bread locks the buffer and holds the block's current contents, reading the disk only if the buffer is not valid |
| `BufferCache.Cache.Write` | initial-xv6/src/kernel/bio.c:107-112 | bwrite puts a held buffer's contents on the disk and changes nothing else clients see |
| `BufferCache.Cache.Release` | initial-xv6/src/kernel/bio.c:117-137 | brelse unlocks and drops one reference; a buffer left unreferenced goes to the front of the list |
| `BufferCache.Cache.MoveToFront` | initial-xv6/src/kernel/bio.c:126-134 | the list stays a circle of all buffers, with the released one first and the rest in their order |
| `BufferCache.Cache.Pin` | initial-xv6/src/kernel/bio.c:140-144 | one more reference to the buffer, nothing else changes |
| `BufferCache.Cache.Unpin` | initial-xv6/src/kernel/bio.c:147-151 | one reference less to the buffer, nothing else changes |
| `BufferCache.Cache.RoomIff` | initial-xv6/src/kernel/bio.c:77-88 | bget of a block not referenced succeeds if and only if fewer than NBUF blocks are |
| `Log.LoggedRefines` | initial-xv6/src/kernel/log.c:215-235 | logging a held buffer keeps cache plus log equal to one block array in which that block has the buffer's contents |
| `Log.ReleaseRefinesIff` | initial-xv6/src/kernel/log.c:205-214 | releasing a held buffer keeps cache plus log equal to the block array if and only if its contents are those last logged |
| `Log.CrashBeforeHeader` | initial-xv6/src/kernel/log.c:179-191 | after any number of slots have been written a reboot brings back the old home blocks |
| `Log.CrashAfterHeader` | initial-xv6/src/kernel/log.c:69-83 | once the header is written, after any number of home blocks a reboot brings back the new ones |
| `Log.CommitRecoverable` | initial-xv6/src/kernel/log.c:194-203 | the images commit adds to the trace: all up to the header write recover to the old home blocks, all from it on to the new |
| `Log.WriteAheadLog.constructor` | initial-xv6/src/kernel/log.c:55-65 | initlog leaves a disk and a block array equal to what recovering the disk found gives |
| `Log.WriteAheadLog.RecoverFromLog` | initial-xv6/src/kernel/log.c:117-123 | recovery installs the committed entries and empties the log; every image on the way recovers to the same home blocks |
| `Log.WriteAheadLog.ReadHead` | initial-xv6/src/kernel/log.c:87-97 | the in-memory header lists what the disk's header block does; the cache is as before |
| `Log.WriteAheadLog.BeginOp` | initial-xv6/src/kernel/log.c:127-142 | an operation is admitted exactly when no commit is under way and the reservations of all, with its own, fit LOGSIZE |
| `Log.WriteAheadLog.EndOp` | initial-xv6/src/kernel/log.c:147-175 | an operation ends; the last one out commits, whoever else holds unlogged buffers, after which the home blocks on the disk are the block array and exactly the pins of the entries are gone |
| `Log.WriteAheadLog.ReadBlock` | initial-xv6/src/kernel/bio.c:93-103 | bread of a home block returns the contents last logged for it |
| `Log.WriteAheadLog.Change` | initial-xv6/src/kernel/log.c:205-214 | an unlogged change to a locked buffer leaves the block array as it is |
| `Log.WriteAheadLog.LogWrite` | initial-xv6/src/kernel/log.c:215-235 | the block array takes the buffer's contents; a block new to the transaction is appended and pinned, one already in it is absorbed |
| `Log.WriteAheadLog.ReleaseBlock` | initial-xv6/src/kernel/bio.c:117-137 | releasing a buffer whose changes are logged keeps cache plus log equal to the block array |
| `Log.WriteAheadLog.LogBlock` | initial-xv6/src/kernel/log.c:205-235 | bread, a change, log_write and brelse: the block array takes the new contents, and the block joins the transaction and is pinned unless it was in it already; nothing else changes |
| `Log.WriteAheadLog.CopyToSlot` | initial-xv6/src/kernel/log.c:183-190 | one round of write_log: the slot holds the block's cached contents, on the disk too |
| `Log.WriteAheadLog.WriteLog` | initial-xv6/src/kernel/log.c:179-191 | slot k, at block start + 1 + k, holds entry k's contents, in lh.n disk writes, and each image on the way recovers to the old home blocks |
| `Log.WriteAheadLog.WriteHead` | initial-xv6/src/kernel/log.c:103-114 | the bytes of the header block are the count and then the entries, four bytes each, in one disk write |
| `Log.WriteAheadLog.InstallOne` | initial-xv6/src/kernel/log.c:73-82 | one round of install_trans: the home block has its slot's contents, and loses one reference unless recovering; references and locks of others stay |
| `Log.WriteAheadLog.InstallTrans` | initial-xv6/src/kernel/log.c:69-83 | all home blocks have their slots' contents and only the references of others are left; each image on the way recovers to the same home blocks |
| `Log.WriteAheadLog.Seal` | initial-xv6/src/kernel/log.c:196-198 | after the header write the disk recovers to the new home blocks; every image before it to the old ones |
| `Log.WriteAheadLog.Commit` | initial-xv6/src/kernel/log.c:194-203 | with other processes holding any unlogged blocks, locked or not, commit empties the log and brings the disk up to date; a crash at any of its block writes recovers to all old contents before the header write and all new contents from it on; exactly the pins of the entries are dropped |
| `Log.WriteAheadLog.CommitFits` | initial-xv6/src/kernel/log.c:194-203 | whoever holds buffers, bget of a block no one refers to succeeds if and only if fewer than NBUF blocks are referenced, and of a referenced one always |
| `Log.WriteAheadLog.CommitReadyIff` | initial-xv6/src/kernel/log.c:194-203 | with no other holder commit can run if and only if lh.n < NBUF, as it is in a log region of NBUF blocks |
| `Log.Finished` | initial-xv6/src/kernel/log.c:199-201 | once the home blocks are installed, clearing the header ends the transaction: cache plus log are the block array, with an empty log |
| `CommitProtocol.CopyKeepsInv` | initial-xv6/src/kernel/log.c:179-191 | a round of write_log fills its slot with what was logged, whatever readers hold, and shows them nothing new |
| `CommitProtocol.SealKeepsInv` | initial-xv6/src/kernel/log.c:104-117 | the header write makes the disk recover to the block array, whatever readers hold |
| `CommitProtocol.SlotHolds` | initial-xv6/src/kernel/log.c:69-83 | during install_trans each slot still to come holds its own entry's logged contents |
| `CommitProtocol.InstallKeepsInv` | initial-xv6/src/kernel/log.c:69-83 | a round of install_trans drops one pin and leaves every reader seeing the block array |
| `CommitProtocol.ReaderKeepsInv` | initial-xv6/src/kernel/bio.c:93-137 | a bread and a brelse by a reader, of a logged block too, disturb neither the slots nor the blocks installed |
| `CommitProtocol.RunSafe` | initial-xv6/src/kernel/log.c:194-203 | in every interleaving of readers with the rounds of commit: each image before the header write recovers to the old home blocks and each one from then on to the new, a reader that gets a block finds its logged contents, and at the end cache plus log are the block array |
| `CommitProtocol.OnlyWaits` | initial-xv6/src/kernel/log.c:194-203 | at any time commit is done, can take its next round, lacks a buffer, or waits for a reader that can let go of a logged block |
| `CommitProgress.ReaderAlone` | initial-xv6/src/kernel/bio.c:93-125 | from a reader's bread to its brelse the block stays locked with its reference and its contents, whatever else happens, and no other bread and no round of commit gets it |
| `CommitProgress.ReaderLeaves` | initial-xv6/src/kernel/bio.c:117-125 | its brelse is possible and leaves the block unlocked with the references it had |
| `CommitProgress.CommitFinishes` | initial-xv6/src/kernel/log.c:194-203 | from any state of any run where a buffer can be had, rounds of commit and brelses of logged blocks alone lead to its end, with the block array on the disk |
| `CommitProgress.OnDiskToo` | initial-xv6/src/kernel/bio.c:117-137 | during commit a block no longer pinned that holds the block array has it on the disk too, so that brelse may drop it |
| `CommitProgress.Read` | initial-xv6/src/kernel/bio.c:93-103 | the cache's bread takes the protocol's step, and returns the block array's contents |
| `CommitProgress.Leave` | initial-xv6/src/kernel/bio.c:117-137 | so does brelse |
| `CommitProgress.CopyRound` | initial-xv6/src/kernel/log.c:183-190 | so does a round of write_log |
| `CommitProgress.InstallRound` | initial-xv6/src/kernel/log.c:73-82 | so does a round of install_trans |
| `CommitProgress.HeadRound` | initial-xv6/src/kernel/log.c:103-114 | so do the two header writes |
| `CommitProgress.ReadAtStart` | initial-xv6/src/kernel/bio.c:93-137 | ReadBlock and ReleaseBlock of the log are a reader's two steps, and undo each other |
| `LogAdmission.BeginKeepsInv` | initial-xv6/src/kernel/log.c:127-142 | admitting an operation keeps entries plus unused reservations within LOGSIZE |
| `LogAdmission.LogWriteKeepsInv` | initial-xv6/src/kernel/log.c:215-235 | so does logging a block, new or absorbed |
| `LogAdmission.EndKeepsInv` | initial-xv6/src/kernel/log.c:147-175 | so does an operation's end |
| `LogAdmission.StepKeepsInv` | initial-xv6/src/kernel/log.c:126-175 | every step keeps it, and end_op's panic is not reached |
| `LogAdmission.RunSafe` | initial-xv6/src/kernel/log.c:126-175 | in every run: entries plus unused reservations never exceed LOGSIZE, committing means no operation is outstanding, end_op never panics, and if no operation logs a block twice and the region has more than LOGSIZE blocks log_write does not either |
| `LogAdmission.FirstWriteFits` | initial-xv6/src/kernel/log.c:215-235 | an operation that still has a block to log finds lh.n < LOGSIZE |
| `LogAdmission.EntriesAre` | initial-xv6/src/kernel/log.c:215-235 | in every run the log lists the blocks logged since the last commit, each once |
| `LogAdmission.OthersStay` | initial-xv6/src/kernel/log.c:126-235 | a step of one operation leaves the others and what they have logged alone |
| `LogAdmission.NextGetsIn` | initial-xv6/src/kernel/log.c:127-175 | from any state of any run, once the operations under way end and commit is done, begin_op admits the next to an empty log |
| `LogAdmission.TooBigReachableIff` | initial-xv6/src/kernel/log.c:220-221 | without logging a block twice, "too big a transaction" can be reached if and only if the log region has at most LOGSIZE blocks |
| `LogAdmission.FillingRun` | initial-xv6/src/kernel/log.c:126-235 | a run that fills the log to any length the region allows, with three operations of ten blocks |
| `LogAdmission.RelogPanics` | initial-xv6/src/kernel/log.c:219-231 | log_write tests for space before it looks for the block, so logging a block again with the log full panics for a region of any size |
| `FileLayout.Allocated` | initial-xv6/src/kernel/fs.c:66-88 | marking and zeroing a free block changes no file and no reference |
| `FileLayout.LinkedDirect` | initial-xv6/src/kernel/fs.c:388-396 | a fresh block put in an empty place of the inode keeps every block owned once and marked, and no file reads differently |
| `FileLayout.LinkedIndirect` | initial-xv6/src/kernel/fs.c:407-415 | the same for an empty entry of the indirect block |
| `FileLayout.WroteBlock` | initial-xv6/src/kernel/fs.c:516-528 | storing the next bytes in the block that holds them changes exactly those bytes of that file |
| `FileLayout.InodeStored` | initial-xv6/src/kernel/fs.c:226-241 | iupdate stores all sixteen words of this inode in its place and leaves other inodes, files and the bitmap alone |
| `FileLayout.StoredInodeUnique` | initial-xv6/src/kernel/fs.h:32-39 | the words on the disk determine type, device numbers, link count, size and addresses: no two inodes are stored alike |
| `FileLayout.StoredOnDisk` | initial-xv6/src/kernel/fs.c:226-241 | once iupdate has stored an inode, the inode blocks hold the addresses of all inodes again |
| `FileLayout.OnDiskIff` | initial-xv6/src/kernel/fs.c:383-421 | after allocations without iupdate they do so if and only if no address of the inode has changed |
| `FileLayout.FileByteIs` | initial-xv6/src/kernel/fs.c:383-421 | a file's byte is the one that the bytes of the inode block, the indirect block and the data block lead to |
| `FileLayout.InodeFieldsAre` | initial-xv6/src/kernel/fs.h:32-39 | a stored inode has every field at its offset of struct dinode, sixteen inodes to a block |
| `FileLayout.BitAtIs` | initial-xv6/src/kernel/fs.c:73-77 | the bit of block b in the free map is bit b % 8 of byte b % 8192 / 8 of its bitmap block |
| `FileLayout.BytesLie` | initial-xv6/src/kernel/fs.c:472-496 | bytes of a file on blocks that are there lie on the disk at their places |
| `FileLayout.Unmarked` | initial-xv6/src/kernel/fs.c:92-105 | clearing the bit of a block that is owned no longer leaves the bitmap exact |
| `FileLayout.DroppedRefs` | initial-xv6/src/kernel/fs.c:426-450 | an inode without some of its references owns what it did less those |
| `WriteLogs.AllocOne` | initial-xv6/src/kernel/fs.c:66-88 | taking the first free block logs it, its bitmap block and, for an indirect entry, the indirect block, and leaves nothing free below it |
| `WriteLogs.ProgressStep` | initial-xv6/src/kernel/fs.c:516-528 | one iteration of writei keeps the account of what is mapped, allocated and logged exact |
| `WriteLogs.LogCount` | initial-xv6/src/kernel/fs.c:506-539 | the number of blocks a write logs is exactly the blocks touched, the bitmap blocks its allocations lie in, one if the indirect block changed, and one for the inode |
| `WriteLogs.LogBound` | initial-xv6/src/kernel/fs.c:506-539 | which is at most the blocks touched, those of them that were missing, and three |
| `WriteLogs.ChunkFitsIff` | initial-xv6/src/kernel/file.c:149-160 | for a chunk of filewrite that bound is within MAXOPBLOCKS if and only if the chunk touches at most three blocks or finds one of them present |
| `WriteLogs.ChunkBound` | initial-xv6/src/kernel/file.c:149-160 | which holds on every hole-free file |
| `WriteLimit.LowestTaken` | initial-xv6/src/kernel/fs.c:66-88 | as many allocations as there are blocks in a list of the lowest free ones take exactly that list |
| `WriteLimit.NeverShort` | initial-xv6/src/kernel/fs.c:516-528 | with as many free blocks as it needs a write does not stop short |
| `WriteLimit.SpreadCount` | initial-xv6/src/kernel/fs.c:506-539 | a write whose free blocks lie in different bitmap blocks logs one bitmap block per allocation: touched blocks, allocations and two |
| `WriteLimit.ChunkExceedsIff` | initial-xv6/src/kernel/file.c:149-167 | a chunk logs more than MAXOPBLOCKS blocks if and only if, before the write, it spans four blocks, they and the indirect block one of them needs are all missing, and the five lowest free blocks lie in five bitmap blocks |
| `WriteLimit.WriteCounted` | initial-xv6/src/kernel/fs.c:506-539 | writei of a chunk to any file, with holes or not, logs more than MAXOPBLOCKS blocks exactly in those states |
| `WriteLimit.ImageStored` | initial-xv6/src/kernel/fs.h:32-45 | the volume built to show it has all its inodes in its inode blocks |
| `WriteLimit.ChunkAtLimit` | initial-xv6/src/kernel/file.c:149-167 | from a sound volume with its inodes on the disk, a chunk written in full to a hole-free file logs exactly MAXOPBLOCKS blocks, just those the write needs |
| `WriteLimit.HoleOverLimit` | initial-xv6/src/kernel/fs.c:506-539 | from one like it where the first block is a hole the same write logs MAXOPBLOCKS + 1 |
| `CrashSafety.HomeRestores` | initial-xv6/src/mkfs/mkfs.c:100-103 | a disk with the home blocks of a sound file system is that file system: the same owners, bitmap, inode table and file bytes |
| `CrashSafety.RecoversSurvives` | initial-xv6/src/kernel/log.c:117-123 | however often recovery is cut short, what it completes to is the file system the first image stood for |
| `CrashSafety.ChunkAllOrNothing` | initial-xv6/src/kernel/file.c:158-167 | read from the inode blocks and data blocks of the recovered disk alone, the file has its old size and bytes, or its new size and all the bytes writei reported written; every other file is as before |
| `CrashSafety.ShowsBytes` | initial-xv6/src/kernel/fs.h:32-45 | so much in terms of bytes alone: every byte of every file, and every size, is where the format puts it |
| `CrashSafety.CommitVolume` | initial-xv6/src/kernel/log.c:194-203 | a crash at any block write of commit, with any number of recoveries cut short, leaves a sound file system with its inodes on the disk: all files as before the transaction up to the header write, all files as after it from then on |
| `CrashSafety.LogsMine` | initial-xv6/src/kernel/fs.c:506-539 | a write logs no block of the log region and no block of another file |
| `CrashSafety.LogAll` | initial-xv6/src/kernel/log.c:205-235 | log_write of every block an operation changed makes the log's block array the volume, adds just those blocks to the transaction, each once, and leaves commit able to run |
| `CrashSafety.CommitChunk` | initial-xv6/src/kernel/file.c:158-167 | a chunk of filewrite from writei through log_write to the end_op that commits it, with readers holding blocks of other files: a crash at one of the first k block writes, k the number of blocks in the transaction, and any number of recoveries cut short, leaves the files as before the transaction, a crash at a later one as after it; for a transaction of this chunk alone the disk shows none of the bytes written, or all of them and the new size |
| `FileSystem.Volume.Balloc` | initial-xv6/src/kernel/fs.c:66-88 | the first block with a clear bit is marked and zeroed; 0 exactly when every bit is set; nothing changes that is not logged |
| `FileSystem.Volume.ScanBitmapBlock` | initial-xv6/src/kernel/fs.c:73-83 | the inner loop stops at the first clear bit of a bitmap block, or finds none |
| `FileSystem.Volume.NewDirect` | initial-xv6/src/kernel/fs.c:388-396 | a fresh block, the lowest free one, in an empty place of the inode, or nothing changed on a full disk |
| `FileSystem.Volume.NewIndirect` | initial-xv6/src/kernel/fs.c:409-415 | a fresh block, the lowest free one, in an empty indirect entry, or nothing changed on a full disk |
| `FileSystem.Volume.Bmap` | initial-xv6/src/kernel/fs.c:383-421 | block bn of the file is the bn-th address, or from twelve on the word at bytes 4(bn - 12) onwards of the block the thirteenth address names; it is allocated if missing, 0 only on a full disk; ownership stays exact, no file reads differently, an existing block costs no change, a direct index leaves the indirect pointer alone, what is allocated is the missing block and a missing indirect block, and exactly what that needs is logged |
| `FileSystem.Volume.Readi` | initial-xv6/src/kernel/fs.c:472-496 | the bytes of the file at an offset, cut at its size, each the byte at its place in the block that Bmap names; on a hole-free file all of them, with nothing allocated; with the inodes on the disk before, they are after if and only if no address has changed |
| `FileSystem.Volume.Iupdate` | initial-xv6/src/kernel/fs.c:226-241 | the bytes of the inode's place on the disk are its type, device numbers, link count, size and addresses, each where struct dinode has it; other inodes are untouched |
| `FileSystem.Volume.WriteBlocks` | initial-xv6/src/kernel/fs.c:516-528 | writei's loop changes exactly the bytes it got to, stops early only at a missing block on a full disk, allocates exactly the missing blocks it touched, lowest free ones first, and logs exactly the blocks it touched and what the allocations need |
| `FileSystem.Volume.Writei` | initial-xv6/src/kernel/fs.c:506-539 | -1 exactly for an offset past the size or an end past MAXFILE; otherwise exactly the bytes [off, off + r) change and lie at their places in the blocks the addresses name, size becomes max(size, off + r), other files and inodes stay, the inodes stay on the disk, a hole-free file stays so, r falls short only on a full disk, and the set of blocks logged is given exactly |
| `FileSystem.Volume.DropDirect` | initial-xv6/src/kernel/fs.c:432-437 | a direct block goes back to the bitmap and only bitmap blocks change |
| `FileSystem.Volume.FreeEntries` | initial-xv6/src/kernel/fs.c:440-446 | every block listed in the indirect block goes back to the bitmap |
| `FileSystem.Volume.DropIndirect` | initial-xv6/src/kernel/fs.c:439-449 | those blocks and the indirect block itself go back |
| `FileSystem.Volume.Itrunc` | initial-xv6/src/kernel/fs.c:426-453 | the file owns nothing and has size 0; every block it owned, and no other, is freed; other files and inodes are untouched; the inodes stay on the disk; nothing changes that is not logged |
| `FileSystem.Volume.WriteChunk` | initial-xv6/src/kernel/file.c:158-167 | one transaction of filewrite on a hole-free file logs at most MAXOPBLOCKS distinct blocks, given exactly, changes no other, and leaves the inode with its new size and addresses on the disk |
| `FileSystem.OpenFile.Write` | initial-xv6/src/kernel/file.c:148-175 | filewrite changes exactly the bytes of a prefix of the source at the file offset, moves the offset past it, returns the whole length or -1, and keeps the inodes on the disk |
| `FileSystem.StaysHoleFree` | initial-xv6/src/kernel/fs.c:506-539 | a write to a hole-free file leaves a hole-free file |
| `PageTable.PteRoundTrip` | initial-xv6/src/kernel/riscv.h:341-352 | packing a page number and flags into a PTE and taking them out again are inverse, on every PTE and every word |
| `PageTable.IndicesDistinct` | initial-xv6/src/kernel/riscv.h:354-363 | distinct pages below MAXVA have distinct index triples |
| `PageTable.DistinctSlots` | initial-xv6/src/kernel/vm.c:86-103 | so they reach distinct entries of the lowest tables |
| `PageTable.LeafSet` | initial-xv6/src/kernel/vm.c:86-103 | storing through the entry of one page changes that page's mapping and no other |
| `PageTable.TableAdded` | initial-xv6/src/kernel/vm.c:91-101 | adding a zeroed table at either level changes no mapping and no other tree |
| `PageTable.TreeFrame` | initial-xv6/src/kernel/vm.c:86-103 | a tree depends on its own pages only |
| `PageTable.OtherTree` | initial-xv6/src/kernel/vm.c:306-333 | one address space growing leaves every other with its tables and mappings |
| `PageTable.TreeBare` | initial-xv6/src/kernel/vm.c:272-287 | a table tree with no valid leaf is made of pointers only, reaches no page twice, and reaches exactly its own pages |
| `PageTable.BareFrame` | initial-xv6/src/kernel/vm.c:272-287 | freeing one subtree leaves its siblings as they were |
| `VirtualMemory.Memory.Freerange` | initial-xv6/src/kernel/kalloc.c:34-40 | every page of the range, and no other, becomes free |
| `VirtualMemory.Memory.Kfree` | initial-xv6/src/kernel/kalloc.c:47-63 | the page goes from its use to the free list; the pages in all stay the same |
| `VirtualMemory.Memory.Kalloc` | initial-xv6/src/kernel/kalloc.c:69-82 | a free page, no longer free and filled with 5, or 0 exactly when there is none |
| `VirtualMemory.Memory.ReadPte` | initial-xv6/src/kernel/riscv.h:341-352 | unpacking the word at an index of a table page gives the PTE stored there |
| `VirtualMemory.Memory.WritePte` | initial-xv6/src/kernel/riscv.h:341-352 | storing a packed PTE changes that entry of that table and nothing else |
| `VirtualMemory.Memory.Walk` | initial-xv6/src/kernel/vm.c:86-103 | the lowest table for a page, tables being added from free pages if asked; no mapping changes, and 0 means there is none and, if asked, no page is free |
| `VirtualMemory.Memory.Mappages` | initial-xv6/src/kernel/vm.c:143-165 | exactly the pages of the range are mapped, to consecutive pages with the permissions; on failure exactly the first few of them, with memory used up |
| `VirtualMemory.Memory.Uvmunmap` | initial-xv6/src/kernel/vm.c:171-192 | exactly the pages of the range lose their mapping, and their frames, and no others, are freed if asked |
| `VirtualMemory.Memory.Uvmcreate` | initial-xv6/src/kernel/vm.c:197-205 | an empty address space of one page, or null exactly when no page is free |
| `VirtualMemory.Memory.Uvmalloc` | initial-xv6/src/kernel/vm.c:226-249 | growth maps fresh, distinct, zeroed frames at the new pages, which are the user's for each choice of permissions, and changes no other mapping; on failure every mapping and frame is as before; pages are conserved |
| `VirtualMemory.Memory.Uvmdealloc` | initial-xv6/src/kernel/vm.c:256-267 | exactly the pages above the new size are unmapped and their frames freed |
| `VirtualMemory.Memory.Freewalk` | initial-xv6/src/kernel/vm.c:272-287 | exactly the table pages of the subtree become free; the panic on a leaf is not reached |
| `VirtualMemory.Memory.Uvmfree` | initial-xv6/src/kernel/vm.c:292-297 | with exactly [0, sz) mapped, every frame and every table page of the address space becomes free, and nothing else |
| `VirtualMemory.Memory.Uvmcopy` | initial-xv6/src/kernel/vm.c:306-333 | the child gets fresh, distinct frames with equal contents and flags at the same pages, the parent is untouched; on failure the child's mappings and all frames are as before |
| `VirtualMemory.Memory.Uvmclear` | initial-xv6/src/kernel/vm.c:338-346 | the page is not the user's any more, and every other page is if and only if it was; every other mapping stays |
| `VirtualMemory.Memory.Walkaddr` | initial-xv6/src/kernel/vm.c:109-126 | the frame of a page mapped for the user, 0 exactly for other pages |
| `VirtualMemory.Memory.Copyout` | initial-xv6/src/kernel/vm.c:352-371 | exactly the bytes at the user addresses become the source's, up to the first address the user cannot reach, all of them addresses the user can; success exactly when all are written |
| `VirtualMemory.Memory.Copyin` | initial-xv6/src/kernel/vm.c:377-396 | the bytes at the user addresses, up to the first one the user cannot reach; nothing changes |
| `VirtualMemory.Memory.CopyRoundTrip` | initial-xv6/src/kernel/vm.c:352-396 | over a range the user can reach, copyin returns what copyout stored, and no other byte has changed |
| `UserMemory.TranslateIs` | initial-xv6/src/kernel/riscv.h:341-363 | the hardware's walk over the words of the tables finds, for every address below MAXVA, the leaf the flat map has for its page, or faults |
| `UserMemory.SoftwareAgrees` | initial-xv6/src/kernel/vm.c:109-126 | walkaddr accepts the addresses that the hardware lets the user reach, wherever the entry is a leaf |
| `UserMemory.MakeStack` | initial-xv6/src/kernel/exec.c:78-88 | exec's stack: of the two pages made, the user reaches the upper one only; what is copied there reads back, nothing else changes, and a copyout that starts on the guard page fails |
| `UserMemory.CopySeesSame` | initial-xv6/src/kernel/vm.c:306-333 | after uvmcopy the child reaches, within the size copied, what the parent does, and finds the same bytes |
| `UserMemory.CopyThenStore` | initial-xv6/src/kernel/vm.c:306-371 | after uvmcopy a copyout to the child changes those bytes of the child, the rest being the parent's within the size copied, and none of the parent's own; a failed uvmcopy changes none either |
| `Heap.SearchEnds` | initial-xv6/src/user/umalloc.c:30-32 | free's search test holds at the one place between neighbours where the block belongs, and nowhere else |
| `Heap.InsertedOk` | initial-xv6/src/user/umalloc.c:37-43 | a block linked in at its place keeps one address-ordered cycle in which only its neighbours may touch it |
| `Heap.JoinedOk` | initial-xv6/src/user/umalloc.c:33-43 | joining two neighbours that touch keeps the cycle, the units, the live blocks and all free room |
| `Heap.AfterRightOk` | initial-xv6/src/user/umalloc.c:33-37 | after the first half of free's merging only the block and its predecessor may touch |
| `Heap.AfterLeftOk` | initial-xv6/src/user/umalloc.c:38-43 | after the second half no two free blocks touch |
| `Heap.FreedUnits` | initial-xv6/src/user/umalloc.c:25-44 | what free does in all: units and other live blocks stay, the block and all earlier free room are covered by free blocks |
| `Heap.Extended` | initial-xv6/src/user/umalloc.c:54-59 | memory from sbrk overlaps no block and adds its units |
| `Heap.TakenWhole` | initial-xv6/src/user/umalloc.c:76-77 | unlinking an exact fit keeps the cycle; the block becomes live |
| `Heap.TakenTail` | initial-xv6/src/user/umalloc.c:78-82 | cutting a block's tail off keeps the cycle and the units; the tail is a new live block |
| `Heap.Units` | initial-xv6/src/user/umalloc.c:69 | the units are the least that hold the bytes and a header |
| `Heap.RequestFits` | initial-xv6/src/user/umalloc.c:52-54 | sbrk's int argument is what morecore computes if and only if the request is below 2^31 bytes |
| `Heap.GrainLeast` | initial-xv6/src/user/umalloc.c:52-53 | morecore asks for the least that is enough and no less than 4096 units |
| `Heap.Allocator.Search` | initial-xv6/src/user/umalloc.c:30-32 | the search ends, at the place of the block |
| `Heap.Allocator.AttachRight` | initial-xv6/src/user/umalloc.c:33-37 | the block takes in what follows it exactly if they touch |
| `Heap.Allocator.AttachLeft` | initial-xv6/src/user/umalloc.c:38-43 | the predecessor takes in the block exactly if they touch; the list is well formed again |
| `Heap.Allocator.Free` | initial-xv6/src/user/umalloc.c:25-44 | a live block becomes free room, other live blocks and the total of units stay, and the list is again one address-ordered cycle of disjoint blocks that do not touch, with freep the last free block below |
| `Heap.Allocator.Grow` | initial-xv6/src/kernel/sysproc.c:39-49 | the program moving the break up itself leaves the allocator in order |
| `Heap.Allocator.Morecore` | initial-xv6/src/user/umalloc.c:47-61 | 0 exactly when sbrk fails; otherwise at least 4096 new units are on the list, in a block that holds the request |
| `Heap.Allocator.Take` | initial-xv6/src/user/umalloc.c:75-85 | a new live block of exactly the units asked for, the tail of the free one found; other live blocks stay and freep is the block before |
| `Heap.Allocator.Fit` | initial-xv6/src/user/umalloc.c:74-89 | the search ends; it asks sbrk at most once, and only after finding every free block too small |
| `Heap.Allocator.Initialize` | initial-xv6/src/user/umalloc.c:70-73 | the first call makes a list of the empty static header alone |
| `Heap.Allocator.Malloc` | initial-xv6/src/user/umalloc.c:64-90 | a block of the least size that fits, not overlapping any live one, all of which stay; sbrk is called at most once, exactly if no free block fits, and 0 is returned only if it failed; otherwise the block is the tail of the first fit after freep; units are conserved |
| `Heap.Allocator.Separate` | initial-xv6/src/user/umalloc.c:25-90 | at any time a live block overlaps no other block, live or free, and lies between the static header and the break |
| `Heap.Allocator.NeverAdjacent` | initial-xv6/src/user/umalloc.c:25-90 | at any time no free block reaches the next |
| `Heap.Allocator.SizesFit` | initial-xv6/src/user/umalloc.c:11-17 | sizes fit their 32-bit field in processes below 2^36 bytes |
| `Virtio.RingPush` | initial-xv6/src/kernel/virtio_disk.c:271-277 | a ring has a free entry for one more chain, so adding it overwrites none |
| `Virtio.RingPop` | initial-xv6/src/kernel/virtio_disk.c:312-324 | taking the oldest entry off leaves the others |
| `Virtio.IndicesWrap` | initial-xv6/src/kernel/virtio_disk.c:272-323 | 16-bit indices tell an empty ring from another and name the right entries, however often they have wrapped |
| `Virtio.InUse` | initial-xv6/src/kernel/virtio_disk.c:156-213 | a chain's three descriptors are distinct, not free, and no other chain's |
| `Virtio.StartedOk` | initial-xv6/src/kernel/virtio_disk.c:216-281 | beginning a request keeps descriptors, chains, rings and buffers consistent |
| `Virtio.TakenOk` | initial-xv6/src/kernel/virtio_disk.c:271-281 | so does the device taking one |
| `Virtio.CompletedOk` | initial-xv6/src/kernel/virtio_disk.c:309-310 | so does the device finishing any one it has taken |
| `Virtio.DrainedOk` | initial-xv6/src/kernel/virtio_disk.c:312-324 | so does the handler seeing one, which finds status 0 and the buffer that issued it |
| `Virtio.FinishedOk` | initial-xv6/src/kernel/virtio_disk.c:288-289 | so does the end of a request, which frees its three descriptors |
| `Virtio.StepOk` | initial-xv6/src/kernel/virtio_disk.c:156-327 | every step of driver, device and handler does |
| `Virtio.WakesMatchStarts` | initial-xv6/src/kernel/virtio_disk.c:216-327 | in every interleaving each request of a buffer is answered by exactly one wakeup of that buffer, except one that may still be under way |
| `VirtioTransfer.ServedIs` | initial-xv6/src/kernel/virtio_disk.c:216-270 | a device that goes by the descriptors alone, and moves a block only the way they allow, does what the request asks, for every request in flight |
| `VirtioTransfer.WriteStores` | initial-xv6/src/kernel/virtio_disk.c:216-289 | a request to write puts on the disk what the buffer held when it was made, whatever is served in between |
| `VirtioTransfer.ReadReturns` | initial-xv6/src/kernel/virtio_disk.c:216-289 | a request to read leaves in the buffer, until it ends, what the disk had when it was served |
| `VirtioTransfer.RequestEnds` | initial-xv6/src/kernel/virtio_disk.c:216-327 | from every state each request can be brought to its end with no new one begun, and its three descriptors are free then |
| `Virtio.Driver.AllocDesc` | initial-xv6/src/kernel/virtio_disk.c:157-166 | the first free descriptor is taken; -1 exactly when none is free |
| `Virtio.Driver.AllocThree` | initial-xv6/src/kernel/virtio_disk.c:202-213 | three distinct free descriptors are taken, or none, and then there were not three |
| `Virtio.Driver.FreeChain` | initial-xv6/src/kernel/virtio_disk.c:186-197 | exactly the three descriptors of the chain are freed |
| `Virtio.Driver.Start` | initial-xv6/src/kernel/virtio_disk.c:216-281 | a request is formed and made available on three free descriptors, or, with fewer, nothing changes and the caller must sleep |
| `Virtio.Driver.TakeNext` | initial-xv6/src/kernel/virtio_disk.c:235-281 | the device reads from the descriptors of the next chain the request and the buffer that were submitted |
| `Virtio.Driver.CompleteChain` | initial-xv6/src/kernel/virtio_disk.c:309-310 | the device writes status 0 and appends the chain to the used ring |
| `Virtio.Driver.SeeOne` | initial-xv6/src/kernel/virtio_disk.c:312-324 | the issuing buffer is unmarked and woken; the status panic is not reached |
| `Virtio.Driver.Intr` | initial-xv6/src/kernel/virtio_disk.c:295-327 | every completion there is is seen, oldest first, each waking its buffer once |
| `Virtio.DrainAllMeans` | initial-xv6/src/kernel/virtio_disk.c:312-324 | that marks exactly the completed chains as seen and wakes their buffers in ring order |
| `Virtio.Driver.Finish` | initial-xv6/src/kernel/virtio_disk.c:283-289 | once its buffer is unmarked a request's descriptors are freed; free_desc's panics are not reached |
| `SleepLock.AcquireKeepsInv` | initial-xv6/src/kernel/sleeplock.c:22-31 | the steps of acquiresleep keep spinlock ownership, the one holder, and a wakeup to come for every sleeper of a free lock |
| `SleepLock.SleepKeepsInv` | initial-xv6/src/kernel/proc.c:807-833 | so do the steps of sleep, with p->lock taken before the inner lock is released |
| `SleepLock.SwitchKeepsInv` | initial-xv6/src/kernel/proc.c:821-831 | so do going to sleep under p->lock alone, and coming back |
| `SleepLock.ReleaseKeepsInv` | initial-xv6/src/kernel/sleeplock.c:34-41 | so do those of releasesleep |
| `SleepLock.WakeupKeepsInv` | initial-xv6/src/kernel/proc.c:837-854 | so does each round of wakeup's scan, which leaves no sleeper behind |
| `SleepLock.EnvironmentKeepsInv` | initial-xv6/src/kernel/proc.c:859-880 | so does locking a process and making it runnable, as kill does |
| `SleepLock.RunKeepsInv` | initial-xv6/src/kernel/sleeplock.c:21-41 | so does every interleaving of any number of processes |
| `SleepLock.RunSafe` | initial-xv6/src/kernel/sleeplock.c:21-52 | in every run at most one process has the sleep lock, holdingsleep says which, and whenever the inner lock is free and locked is 0 no process is asleep on the lock or about to be |
| `SleepLockProgress.AcquireAlone` | initial-xv6/src/kernel/sleeplock.c:22-31 | acquiresleep run alone on a free lock takes it for its process and changes nothing else |
| `SleepLockProgress.SleepAlone` | initial-xv6/src/kernel/proc.c:807-833 | on a lock that is taken it goes to sleep and changes nothing else |
| `SleepLockProgress.ReleaseAlone` | initial-xv6/src/kernel/sleeplock.c:34-41 | releasesleep run alone, with no process's lock held, frees the lock, wakes every sleeper and changes nothing else |
| `SleepLockProgress.KillWakes` | initial-xv6/src/kernel/proc.c:859-880 | kill makes a sleeping process runnable and changes nothing else |
| `SleepLockProgress.LockedOut` | initial-xv6/src/kernel/proc.c:807-854 | while another has a process's lock, no one puts it to sleep or wakes it |
| `SleepLockProgress.CanSettle` | initial-xv6/src/kernel/sleeplock.c:21-41 | from every state everyone can come to where no spinlock is held |
| `SleepLockProgress.LockObtainable` | initial-xv6/src/kernel/sleeplock.c:21-41 | from every state of every run each process has a way to get the lock, without kill |
| `SleepLockProgress.ReturnsWithLock` | initial-xv6/src/kernel/sleeplock.c:22-31 | in every run a process that has called acquiresleep gets past the call only by having the lock |
| `Lottery.HolderUnique` | initial-xv6/src/kernel/proc.c:709-713 | each ticket below the total is held by one runnable process only |
| `Lottery.WinnerUnique` | initial-xv6/src/kernel/proc.c:709-726 | a winning ticket determines the process to run |
| `Lottery.CanWinIff` | initial-xv6/src/kernel/proc.c:709-726 | a process can win if and only if it is runnable, has a ticket, and no runnable process further on with as many tickets started earlier |
| `Lottery.LotteryShares` | initial-xv6/src/kernel/proc.c:694-734 | over all winning tickets, those that run a process with t tickets are as many as the tickets of runnable processes having t |
| `Random.Shape` | initial-xv6/src/kernel/proc.c:1083-1086 | 2^k calls of rand multiply the state by 1 modulo 2^(k + 2) and add an odd multiple of 2^k |
| `Random.FullPeriod` | initial-xv6/src/kernel/proc.c:1083-1086 | every residue modulo 2^k of the state comes up within 2^k calls |
| `Random.RandReaches` | initial-xv6/src/kernel/proc.c:1083-1086 | from every state some later call returns any given value below 32768 |
| `Random.FirstValues` | initial-xv6/src/kernel/proc.c:1074-1086 | from the initial state 1 the first three values are 16838, 5758 and 10113 |
| `Lottery.DrawReachesAll` | initial-xv6/src/kernel/proc.c:703-704 | from every state of the generator every ticket below the total is drawn sooner or later if and only if the total is at most 32768 |
| `Lottery.ProcTable.TotalTickets` | initial-xv6/src/kernel/proc.c:695-702 | the sum of the runnable processes' tickets, with every lock released again |
| `Lottery.ProcTable.Choose` | initial-xv6/src/kernel/proc.c:704-726 | of the runnable processes from the ticket's holder on with as many tickets, the one started first, the first in the table among equals; its lock and no other is held |
| `Lottery.ProcTable.Schedule` | initial-xv6/src/kernel/proc.c:694-734 | with tickets about, the winner of the draw is made running and only its lock is held; with none nothing changes |
| `Mlfq.PopKeeps` | initial-xv6/src/kernel/proc.c:85-101 | popping a queue's head keeps each queued process once in the queue of its level |
| `Mlfq.AppendKeeps` | initial-xv6/src/kernel/proc.c:631-649 | so does appending a process that is not queued |
| `Mlfq.FrontKeeps` | initial-xv6/src/kernel/proc.c:667-675 | so does putting one in front |
| `Mlfq.SchedulerKeepsInv` | initial-xv6/src/kernel/proc.c:629-690 | so does every step of the scheduler, which also leaves what it runs at the head of its queue |
| `Mlfq.ExpireKeepsInv` | initial-xv6/src/kernel/trap.c:128-140 | at the end of a quota the running process is the one popped; it is one level further down unless at the last, runnable, in no queue and with its quota unused; all else is as it was and the queues are in order |
| `Mlfq.ProcessKeepsInv` | initial-xv6/src/kernel/proc.c:766-854 | so do ticks, yields, sleeping, waking, exit and fork |
| `Mlfq.ReapKeepsInvIff` | initial-xv6/src/kernel/proc.c:256-276 | freeproc clears the flag without dequeuing, so it keeps the queues in order if and only if the slot is not queued |
| `Mlfq.RunKeepsInv` | initial-xv6/src/kernel/proc.c:629-690 | in every run that reaps no queued slot each queued process is once in the queue its level names, the running one is at its head, and no queue has more than NPROC entries |
| `Mlfq.LevelsOnlyGoDown` | initial-xv6/src/kernel/trap.c:128-138 | while a slot is given to no new process its level number never decreases |
| `Mlfq.QueueBound` | initial-xv6/src/kernel/proc.c:631-649 | a queue has room for every process that is not queued |
| `Mlfq.ReuseDoubles` | initial-xv6/src/kernel/proc.c:256-276 | a run from the start in which a slot reaped while queued is forked into again and is then in two queues at once |
| `Mlfq.QueueFills` | initial-xv6/src/kernel/proc.c:629-690 | a run from the start, with no slot reaped, to a state where all NPROC processes are at one level, queued or runnable, and that queue is empty or has a runnable head |
| `Mlfq.OverFullIff` | initial-xv6/src/kernel/proc.c:630-675 | the first loop makes a queue of all NPROC processes with a runnable head if and only if they crowd one level so |
| `Mlfq.EnqueuedInv` | initial-xv6/src/kernel/proc.c:630-656 | after any number of rounds of the first loop the queues are in order |
| `Mlfq.Queue.Pop` | initial-xv6/src/kernel/proc.c:85-101 | the shift leaves the queue without its first entry, which is returned |
| `Mlfq.Queue.PushBack` | initial-xv6/src/kernel/proc.c:640-642 | the entry is appended |
| `Mlfq.Queue.PushFront` | initial-xv6/src/kernel/proc.c:667-675 | the highest slot the shift stores to is the new length, in the array if and only if the queue had at most NPROC - 2 entries; then the entry is in front of the others |
| `Mlfq.Scheduler.Append` | initial-xv6/src/kernel/proc.c:631-649 | a runnable process joins the queue of its level; the panic is not reached |
| `Mlfq.Scheduler.PutBack` | initial-xv6/src/kernel/proc.c:663-675 | a runnable process popped and put back in front: all is as before if and only if the queue did not fill its array |
| `Mlfq.Scheduler.EnqueueRunnable` | initial-xv6/src/kernel/proc.c:630-656 | each queue is extended by exactly the runnable processes of its level that were not queued, in table order; they are marked queued and nothing else changes |
| `Mlfq.Scheduler.Scan` | initial-xv6/src/kernel/proc.c:662-678 | a queue is popped up to its first runnable process, which is put back, or emptied; other queues and all states stay; the shift leaves the array if and only if all NPROC processes are in the queue and its head can run |
| `Mlfq.Scheduler.FirstProcess` | initial-xv6/src/kernel/proc.c:657-679 | only the first queue that is not empty is popped, even if nothing runnable is in it; the shift leaves the array if and only if one queue holds all processes and its head can run |
| `Mlfq.Scheduler.Schedule` | initial-xv6/src/kernel/proc.c:629-690 | one round of the scheduler is a run of its steps; what it runs is at the head of its queue and all queues above are empty; it overflows if and only if at the start every process is at one level, queued or runnable, and that queue is empty or has a runnable head |
| `Mlfq.Scheduler.QuotaUsed` | initial-xv6/src/kernel/trap.c:128-140 | the same of the process table and queues in memory |
| `Mlfq.Scheduler.UpdateTime` | initial-xv6/src/kernel/proc.c:1030-1049 | the running process has used one tick more, and no other has |
| `Mlfq.Scheduler.TimerTrap` | initial-xv6/src/kernel/trap.c:126-141 | a tick in user mode moves the process down exactly when its use is then at least the quota; otherwise it keeps its place and its use |
| `MlfqQuotas.LevelCounts` | initial-xv6/src/kernel/trap.c:133-135 | in every run a process's level is the number of quotas it has used up since its fork, 3 from the third on |
| `MlfqQuotas.QuotasKept` | initial-xv6/src/kernel/trap.c:128-138 | in every run its ticks, less those that came after its quota was used up and before usertrap looked, fix its level and use: 1 tick at level 0, 4 at level 1, 8 at level 2, and 16 at a time at level 3; what start_time the slot had before does not matter |
| `MlfqQuotas.KernelStays` | initial-xv6/src/kernel/trap.c:193-214 | for every n there is a run in which a process has n ticks, all in the kernel, and is still at level 0 |
| `MlfqQuotas.StateIsLast` | initial-xv6/src/kernel/proc.c:766-880 | in every run a slot's state is the one the last step that concerns it puts it in |
| `MlfqQuotas.QueuedIsLast` | initial-xv6/src/kernel/proc.c:631-675 | so is its status_queue |
| `Pipe.CountersRight` | initial-xv6/src/kernel/pipe.c:77-130 | the tests for full and empty are exact, and nwrite - nread modulo 2^32 is the number of bytes in the pipe, within 512, however often the counters have wrapped |
| `Pipe.PutCarries` | initial-xv6/src/kernel/pipe.c:88-97 | a byte written to a pipe that is not full overwrites none that is unread |
| `Pipe.TakeCarries` | initial-xv6/src/kernel/pipe.c:121-123 | the byte read is the first written that has not been read |
| `Pipe.FirstInFirstOut` | initial-xv6/src/kernel/pipe.c:76-130 | in every interleaving of readers and writers the bytes read are a prefix of the bytes written, at most 512 behind |
| `Pipe.ReadsDrain` | initial-xv6/src/kernel/pipe.c:106-130 | as many reads as there are bytes in the ring get them all |
| `Pipe.WritesFit` | initial-xv6/src/kernel/pipe.c:88-97 | bytes there is room for are taken in order |
| `Pipe.AllGetsThrough` | initial-xv6/src/kernel/pipe.c:76-130 | from every state data of any length gets through, after what was in the pipe and in order |
| `Pipe.PipeBuffer.Write` | initial-xv6/src/kernel/pipe.c:77-103 | up to where it returns or sleeps, pipewrite appends exactly the next bytes of its source; it sleeps only on a full pipe and fails only if killed or without readers |
| `Pipe.PipeBuffer.Read` | initial-xv6/src/kernel/pipe.c:106-130 | piperead returns as many bytes as are wanted and there, in order; it sleeps only on an empty pipe with a writer, and fails only if killed there |
| `Pipe.PipeBuffer.CloseAndDrain` | initial-xv6/src/kernel/pipe.c:59-130 | after the write end is closed, reading on until nothing comes gives exactly the bytes left in the pipe; the pipe is freed exactly if the read end was closed |
| `Regex.ConsAccepts` | initial-xv6/src/user/grep.c:84-95 | a text accepted part by the first item and then by the rest is accepted |
| `Regex.UnconsAccepts` | initial-xv6/src/user/grep.c:84-95 | an accepted text has such a part |
| `Regex.MatchHere` | initial-xv6/src/user/grep.c:84-95 | true if and only if some prefix of the text, up to its end if the pattern ends in $, splits into parts that fit the pattern's items |
| `Regex.MatchStar` | initial-xv6/src/user/grep.c:98-105 | true if and only if the text is some characters fitting c and then a match of the rest |
| `Regex.Match` | initial-xv6/src/user/grep.c:72-81 | true if and only if some part of the text, from its start if the pattern begins with ^, is in the language of the pattern |

## Left out

- Directories, path names, link counts, inode allocation and the inode cache: not modelled.
- Boot, traps, system call entry, console, exec, the shell and user programs other than grep's matcher and malloc: not modelled.
- Alarm calls and the aging loop of the multi-level queues: not modelled. wait_ticks never advances, because both branches of update_time test for RUNNING, so the loop never fires; starvation freedom is not claimed.
- Spinlocks are atomic steps and memory fences are not modelled. In `Log`, `FileSystem`, `VirtualMemory`, `Heap` and `Lottery` each call runs alone.
- User copies that fault inside readi, writei, pipewrite and piperead: not modelled; the properties are stated without them.
- The log, the cache and the file system use one device. `FileSystem` works on a block array and notes the blocks passed to log_write; `CrashSafety.CommitChunk` logs their contents after writei, where the source does so along the way.
- The header's count is read as unsigned, and a disk whose header names blocks outside the disk or inside the log is outside `WriteAheadLog`'s requirements, as the source would panic or overwrite the log.
- Log.WriteAheadLog.Commit: requires that fewer than NBUF blocks are referenced, without which bget panics, and that no one has locked a logged block, for which the source waits; what other processes hold does not change during the call. Readers that lock logged blocks and come and go between its rounds are in `CommitProtocol`, on the clients' view.
- Log.WriteAheadLog.EndOp: requires, like Commit, that no one has locked a logged block, for which the source waits; see `CommitProtocol.RunSafe`.
- Log.WriteAheadLog.WriteLog: requires, like Commit, that no one has locked a logged block, for which the source waits; see `CommitProtocol.RunSafe`.
- Log.WriteAheadLog.Seal: requires, like Commit, that no one has locked a logged block, for which the source waits; see `CommitProtocol.RunSafe`.
- Log.WriteAheadLog.InstallOne: requires, like Commit, that no one has locked a logged block, for which the source waits; see `CommitProtocol.RunSafe`.
- Log.WriteAheadLog.InstallTrans: requires, like Commit, that no one has locked a logged block, for which the source waits; see `CommitProtocol.RunSafe`.
- CommitProtocol.RunSafe: a round of commit is one step, taken once its block is free; commit holds no buffer while it waits.
- CrashSafety.CommitChunk: the operation is the last one open, the cache has room for what it reserves, and while it runs other processes hold no block of the log region and lock blocks of other files only, none of them logged.
- BufferCache.Cache.Release: requires the changes to be written or pinned; `BufferCache.ReleaseCoherentIff` says that brelse keeps the cache coherent in no other case.
- Log.WriteAheadLog.ReleaseBlock: requires the changes to be logged; `Log.ReleaseRefinesIff` says that it keeps the block array in no other case.
- Memory pages are tables or frames of bytes, never both; a page table's contents are not read as bytes.
- VirtualMemory.Memory.Uvmalloc: on failure table pages added on the way stay in the address space's tree, as in the source; they are counted as in use.
- copyinstr, uvmfirst, the kernel's own page table, and the trampoline and trapframe pages that proc_pagetable maps: not modelled; an address space maps user pages only.
- Heap.Allocator.Malloc: requires a request below 2^31 bytes with its header; `Heap.RequestFits` says why. A program that writes over a header is outside the model.
- Virtio.Driver.CompleteChain: a device that reports an error, on which the handler panics, is not modelled; the status written is 0.
- VirtioTransfer.WriteStores: buffers and the disk are values beside the driver's memory; sector numbers do not wrap, and initialisation of the device is left out.
- Waiting in virtio_disk_rw, pipes and begin_op: what happens up to a sleep is modelled, and that a sleeper is woken is proved for sleep locks only.
- SleepLock.RunSafe: processes use one sleep lock; sleeping on other channels is left out.
- SleepLockProgress.LockObtainable: that a way to the lock exists is proved, not that the scheduler takes it.
- CommitProgress.CommitFinishes: likewise; it supposes that bget can find a buffer.
- MlfqQuotas.QuotasKept: requires that the quota is looked at after a tick only, as usertrap does.
- Lottery.ProcTable.Schedule: that the process table does not change between the two passes is part of the model; how often rand returns each value is not.
- Mlfq.Queue.PushFront: where the shift would store past the array the model stops before the store; what the source's store overwrites is not modelled.
- Mlfq.Scheduler.Schedule: interrupts during the scheduler's loops are left out; its single steps are also shown to keep the queues in order in any interleaving with wakeups.
- Regex.Match: strings hold no NUL; grep's reading of lines is left out.
