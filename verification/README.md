# xv6 in Dafny

A model of the core of the xv6 teaching kernel and of two of its user programs, with proofs. The
kernel is the one of `xv6_OS_Lab/Lab1+Lab2/xv6-public`, which schedules by shortest burst time; the
swapper is the one of `xv6_OS_Lab/Lab3/OS3-main/xv6-public`.

| file | source | what it is about |
|---|---|---|
| `Common.dfy` | | declarations that several modules share |
| `Blocks.dfy`, `Bitmap.dfy` | `fs.h` | 512-byte blocks as little-endian words and as bits |
| `LogMachine.dfy` | `log.c` | the redo log as a state machine with crashes; it refines an atomic disk |
| `Log.dfy` | `log.c` | the C functions; every state they pass through is a state of a run of the machine |
| `BufCache.dfy` | `bio.c` | the buffer cache, a doubly linked list of objects; it refines a block map |
| `Ide.dfy` | `ide.c`, `memide.c` | the queue of disk requests; it refines the synchronous disk |
| `FsModel.dfy`, `FileSys.dfy` | `fs.c` | bitmap, block map, inodes; files refine flat byte arrays |
| `File.dfy` | `file.c` | `filewrite`'s chunks against the log reservation |
| `Umalloc.dfy` | `umalloc.c` | the allocator of Kernighan and Ritchie over a mutable heap of headers |
| `Vm.dfy` | `vm.c`, `kalloc.c` | two-level page tables and the free list of frames |
| `ProcTable.dfy` | `proc.c` | the process table, any number of CPUs |
| `SleepLock.dfy` | `sleeplock.c`, `proc.c` | sleep locks over `sleep` and `wakeup`, every interleaving |
| `Pipe.dfy` | `pipe.c` | the ring buffer with wrapping counters, and who sleeps |
| `Swapper.dfy` | third lab's `vm.c`, `proc.c` | the resident-page list, its counters, the victim |
| `Shell.dfy` | `sh.c` | the parser against a grammar, and `nulterminate` |
| `Grep.dfy` | `grep.c` | the matcher against a declarative meaning |

`dafny verify dfyconfig.toml` checks everything.

Where the source changes state in place the model is a class with the source's fields. In `BufCache`,
`Ide`, `ProcTable` and `Pipe`, and in `Log` for `BeginOp`, `WriteTest`, `WriteAppend`, `Leave` and
`Committed`, a method is one critical section (or one step of a device), or what such sections are made
of, so that a contract proved of it holds of every interleaving; `LogMachine` and `SleepLock` interleave
the steps of any number of processes themselves. Elsewhere, in `FileSys`, `File`, `Umalloc`, `Vm`,
`Swapper` and the rest of `Log`, a method is a whole operation that runs alone on what it changes (`Commit`
does, by `LogMachine.CommitIsExclusive`). Ghost fields record what the source leaves implicit: the run so
far (`Log`), the owner of each block or frame (`FileSys`, `Vm`), the list a chain of pointers stands for
(`BufCache`, `Ide`, `Umalloc`, `Vm`, `Swapper`), the bytes ever written (`Pipe`). A panic is a result value
where the model shows when it happens, and otherwise a precondition that names it.

## Results that the code does not meet as one might expect

- The log is one block short: `begin_op` admits operations for LOGSIZE blocks, but `mkfs` gives the log
  LOGSIZE blocks in all, header included. `LogMachine.FreshWritesSucceedIff` says when fresh writes within
  the reservations cannot panic.
- `log_write` tests for room before it takes the lock. With the log that `mkfs` makes, two calls that race
  for the last slot overfill the header, and a home block is overwritten before the commit
  (`LogMachine.RacingWritesSpoil`); `LogMachine.RefinesAlwaysIff` says exactly which logs are safe.
- `log_write` refuses on a full header even a block that is logged already.
  `LogMachine.TestPassesIff` says exactly when an operation can rely on its next write, and
  `LogMachine.NoSizeSuffices` that no log size makes all of them safe.
- The scheduler uses -1 both as a burst time a process may set and as "none yet".
  `ProcTable.Pick` says exactly when the choice is right.
- A killed writer to a pipe that fills the ring returns without waking the reader asleep on it.
  `Pipe.Pipe.WriteTurn` says exactly when, `Pipe.StrandedReader` is such a run.
- `malloc` of almost 4 GB wraps; `Umalloc.NunitsHoldIff` says exactly when the block is large enough.
- The third lab's counter wraps at 32 bits; `Swapper.TickVictim` says exactly when the head of the
  list is still the victim. `Swapper.AddExact` says exactly when `addNewPageToPhysMem` keeps its books;
  `Swapper.AddTwiceExample` is a table on which it does not.
- `kill` looks at no state: it finds zombies and free slots too, and a child that gets a free slot marked
  so is born killed (`ProcTable.ProcTable.KillThenFork`, `ProcTable.BornKilled`).

## Model

| member | source | states |
|---|---|---|
| Blocks.WordBytes | xv6_OS_Lab/Lab1+Lab2/xv6-public/log.c:84-113 | a word lies in the block as four bytes, the lowest first, and storing one changes no other byte |
| LogMachine.EntriesOfHeadBlock | xv6_OS_Lab/Lab1+Lab2/xv6-public/log.c:84-113 | what `read_head` reads back from a block that `write_head` filled is the in-memory header, whatever the block's unused words held |
| LogMachine.StepRefines | xv6_OS_Lab/Lab1+Lab2/xv6-public/log.c:68-233 | every step of the log, of any process, in any order, that does not overfill the log keeps the invariant and is exactly one action on an abstract atomic disk: a logged write shows to running operations, the one header write makes it durable, a crash loses what is not durable, all other steps show nothing |
| LogMachine.OverfillBreaks | xv6_OS_Lab/Lab1+Lab2/xv6-public/log.c:223-232 | an append that finds no slot left, which the test made before the lock does not rule out, breaks the log |
| LogMachine.RunRefines | xv6_OS_Lab/Lab1+Lab2/xv6-public/log.c:68-233 | the same over whole runs, with any number of operations, commits, crashes and recoveries interleaved, `log_write` split at its lock |
| LogMachine.LargeLogFits | xv6_OS_Lab/Lab1+Lab2/xv6-public/log.c:213-233 | in a log of more than LOGSIZE blocks no run overfills, however calls of `log_write` interleave |
| LogMachine.SerialRunFits | xv6_OS_Lab/Lab1+Lab2/xv6-public/log.c:213-233 | in a log of any size no run overfills in which no two calls of `log_write` overlap |
| LogMachine.RacingWritesSpoil | xv6_OS_Lab/Lab1+Lab2/xv6-public/log.c:218-233 | in a log of 2 to LOGSIZE blocks a run is constructed, of operations within their reservations whose tests all pass, in which two racing calls overfill the header and a home block is overwritten before the commit |
| LogMachine.RefinesAlwaysIff | xv6_OS_Lab/Lab1+Lab2/xv6-public/mkfs.c:25 | every run of operations within their reservations refines the atomic disk if and only if the log has more than LOGSIZE blocks (or no slot at all); `mkfs` gives it LOGSIZE |
| LogMachine.RecoveryKeepsDurable | xv6_OS_Lab/Lab1+Lab2/xv6-public/log.c:115-122 | recovery steps and further crashes, in any number, never change what is durable |
| LogMachine.CrashBoots | xv6_OS_Lab/Lab1+Lab2/xv6-public/log.c:53-66 | a crash at any point leaves a machine as at boot, over the disk as it was |
| LogMachine.CrashAtomicity | xv6_OS_Lab/Lab1+Lab2/xv6-public/log.c:68-202 | from any state of a run that does not overfill the log, crash and recover with any number of further crashes: the first recovery to finish leaves each home block as it was if the header write had not happened, and as committed if it had, never a mixture |
| LogMachine.TransactionIsAtomic | xv6_OS_Lab/Lab1+Lab2/xv6-public/log.c:68-233 | all the operations of one transaction that does not overfill the log are together atomic: wherever the machine fails, in or after the commit and in recovery, the first recovery to finish leaves all home blocks as before the transaction or all of them with every logged write in place |
| LogMachine.HomeWrittenOnlyAfterCommit | xv6_OS_Lab/Lab1+Lab2/xv6-public/log.c:192-202 | in a run that does not overfill the log a home block changes on disk only while a transaction whose header is on disk is installed, and only to its logged contents |
| LogMachine.RecoveryFinishes | xv6_OS_Lab/Lab1+Lab2/xv6-public/log.c:115-122 | from boot, n + 2 block writes and reads bring recovery to its end, and every prefix of them is a run |
| LogMachine.ControlHolds | xv6_OS_Lab/Lab1+Lab2/xv6-public/log.c:125-233 | at the end of every run from boot, whether or not it overfills the log, the counters and the open operations agree, no operation is open in a commit, and whoever sleeps must wait |
| LogMachine.CommitIsExclusive | xv6_OS_Lab/Lab1+Lab2/xv6-public/log.c:144-174 | while a commit runs no operation is open, nothing is logged and no header or cached block changes under it; the panic `log.committing` cannot happen |
| LogMachine.SleeperHasWaker | xv6_OS_Lab/Lab1+Lab2/xv6-public/log.c:125-174 | a process sleeps in `begin_op` only while it must wait, and then an open operation or a commit remains whose end wakes it |
| LogMachine.LogTestPanicsIff | xv6_OS_Lab/Lab1+Lab2/xv6-public/log.c:218-221 | the test of `log_write` panics for room exactly when the header holds min(LOGSIZE, size - 1) blocks or more, even if the write would only be absorbed |
| LogMachine.ReservationStep | xv6_OS_Lab/Lab1+Lab2/xv6-public/log.c:125-174 | the logged blocks plus what the open operations may still log stay within LOGSIZE at every step, if no operation logs more than MAXOPBLOCKS fresh blocks |
| LogMachine.ReservationHolds | xv6_OS_Lab/Lab1+Lab2/xv6-public/log.c:125-233 | the same at the end of every run from boot, of any log size and with calls of `log_write` overlapping |
| LogMachine.AdmitsIff | xv6_OS_Lab/Lab1+Lab2/xv6-public/log.c:132-138 | `begin_op` admits exactly when the header, with MAXOPBLOCKS more blocks for each open operation and for the new one, stays within LOGSIZE |
| LogMachine.RefusesOnlyWhenFull | xv6_OS_Lab/Lab1+Lab2/xv6-public/log.c:132-138 | as long as the open operations have logged nothing, it refuses, outside a commit, exactly when admitting would break the reservation |
| LogMachine.TestIsWeakest | xv6_OS_Lab/Lab1+Lab2/xv6-public/log.c:132-138 | of all tests of n and outstanding alone that keep the reservation in every state it is the weakest: whenever it refuses, a state with these two numbers has no room for one more operation |
| LogMachine.ArrayHolds | xv6_OS_Lab/Lab1+Lab2/xv6-public/log.c:228 | an operation within its reservation never writes past the header's array, even when others have passed the test too |
| LogMachine.TestPassesIff | xv6_OS_Lab/Lab1+Lab2/xv6-public/log.c:218-221 | an operation that has logged k fresh blocks can rely on its next `log_write`, in every run of operations within their reservations, if and only if k < MAXOPBLOCKS and the log has more than LOGSIZE - MAXOPBLOCKS + 1 + k blocks (or too few for anybody to log k) |
| LogMachine.FreshWritesSucceedIff | xv6_OS_Lab/Lab1+Lab2/xv6-public/mkfs.c:25 | every fresh write within a reservation passes its test if and only if the log has more than LOGSIZE blocks; with the LOGSIZE blocks that `mkfs` gives it, a run that panics is constructed |
| LogMachine.NoSizeSuffices | xv6_OS_Lab/Lab1+Lab2/xv6-public/log.c:218-221 | no log is large enough for every write: an operation that has used up its reservation can panic on a block it has already logged |
| Log.Log.constructor | xv6_OS_Lab/Lab1+Lab2/xv6-public/log.c:53-66 | booting over a well-formed log gives a state of a run |
| Log.Log.ReadHead | xv6_OS_Lab/Lab1+Lab2/xv6-public/log.c:84-96 | one step of the run; n and the entries in memory become words 0 to n of the header block, and nothing durable changes |
| Log.Log.InstallBlock | xv6_OS_Lab/Lab1+Lab2/xv6-public/log.c:74-81 | block start + tail + 1 of the disk goes to the tail-th home location as one step of the run that shows nothing |
| Log.Log.InstallTrans | xv6_OS_Lab/Lab1+Lab2/xv6-public/log.c:68-82 | n steps of the run, one per home block, that change neither what operations see nor what is durable |
| Log.Log.WriteHead | xv6_OS_Lab/Lab1+Lab2/xv6-public/log.c:101-113 | the loop over the entries leaves n in word 0 of the header block and the entries in words 1 to n, its other words kept |
| Log.Log.WriteLogBlock | xv6_OS_Lab/Lab1+Lab2/xv6-public/log.c:182-189 | the tail-th pinned block goes to block start + tail + 1 of the disk as one step of the run that shows nothing |
| Log.Log.WriteLogBlocks | xv6_OS_Lab/Lab1+Lab2/xv6-public/log.c:176-190 | n steps of the run that copy the pinned blocks to the log and show nothing |
| Log.Log.ClearHead | xv6_OS_Lab/Lab1+Lab2/xv6-public/log.c:199-200 | one step: the log is empty in memory and on disk, and what is durable stays |
| Log.Log.CommitPoint | xv6_OS_Lab/Lab1+Lab2/xv6-public/log.c:197 | this one header write makes durable all that operations saw |
| Log.Log.Commit | xv6_OS_Lab/Lab1+Lab2/xv6-public/log.c:192-202 | 2n + 2 disk writes (none for an empty transaction) whose whole effect is that what operations saw becomes durable |
| Log.Log.RecoverFromLog | xv6_OS_Lab/Lab1+Lab2/xv6-public/log.c:115-122 | afterwards each home block holds on disk what was durable when the machine came up: block w of header word k holds what block start + k held, the others what they held, and the header is empty |
| Log.Log.BeginOp | xv6_OS_Lab/Lab1+Lab2/xv6-public/log.c:125-141 | admitted exactly when no commit runs and n + (outstanding + 1) * MAXOPBLOCKS is at most LOGSIZE; otherwise asleep |
| Log.Log.WriteTest | xv6_OS_Lab/Lab1+Lab2/xv6-public/log.c:218-221 | the tests made without the lock pass exactly when n is below LOGSIZE and size - 1; then the process is past the test |
| Log.Log.FindSlot | xv6_OS_Lab/Lab1+Lab2/xv6-public/log.c:224-227 | the linear search finds where the block is listed, or the end of the list |
| Log.Log.WriteAppend | xv6_OS_Lab/Lab1+Lab2/xv6-public/log.c:223-232 | the part under the lock: the block is appended to the header unless it is there, the write shows to operations only, and the log is sound afterwards if and only if the append does not overfill it |
| Log.Log.Leave | xv6_OS_Lab/Lab1+Lab2/xv6-public/log.c:149-165 | the last operation out is to commit, any other wakes the sleepers; the panic is not reached |
| Log.Log.CommitAll | xv6_OS_Lab/Lab1+Lab2/xv6-public/log.c:167-173 | what the last operation out does with the lock released and taken again: every home block on disk becomes what `bread` gave before |
| Log.Log.EndOp | xv6_OS_Lab/Lab1+Lab2/xv6-public/log.c:144-174 | the last operation out leaves on disk in every home block what operations saw there; every sleeper is woken; the panic is not reached |
| BufCache.Unlink | xv6_OS_Lab/Lab1+Lab2/xv6-public/bio.c:132-133 | the ring without the buffer is a ring again, in both directions |
| BufCache.InsertFront | xv6_OS_Lab/Lab1+Lab2/xv6-public/bio.c:134-137 | the ring with the buffer after the head is a ring again |
| BufCache.BufCache.constructor | xv6_OS_Lab/Lab1+Lab2/xv6-public/bio.c:38-56 | after `binit` the list is a circular permutation of exactly NBUF buffers, and the cache agrees with the disk |
| BufCache.BufCache.Lookup | xv6_OS_Lab/Lab1+Lab2/xv6-public/bio.c:68-76 | the search along next finds the buffer of a block exactly when there is one |
| BufCache.BufCache.FindFree | xv6_OS_Lab/Lab1+Lab2/xv6-public/bio.c:78-92 | the search along prev finds the least recently used buffer with no reference and B_DIRTY clear, or none exists |
| BufCache.BufCache.Bget | xv6_OS_Lab/Lab1+Lab2/xv6-public/bio.c:58-93 | a cached block keeps its buffer and data; otherwise the least recently used free buffer is taken; it panics exactly when the block is not cached and no buffer is free; no block is ever in two buffers, and a pinned block is never evicted |
| BufCache.BufCache.AcquireSleep | xv6_OS_Lab/Lab1+Lab2/xv6-public/bio.c:73 | whoever gets the lock of a buffer that has data finds the latest data there, whoever held it before |
| BufCache.BufCache.BreadLocked | xv6_OS_Lab/Lab1+Lab2/xv6-public/bio.c:95-106 | from the moment the buffer's lock is free, the rest of `bread`: the buffer is held by the caller and has what was last logged or written for the block |
| BufCache.BufCache.Bread | xv6_OS_Lab/Lab1+Lab2/xv6-public/bio.c:95-106 | the whole of `bread` when nobody else holds the buffer; when somebody does, Bget and BreadLocked say the same |
| BufCache.BufCache.LogWrite | xv6_OS_Lab/Lab1+Lab2/xv6-public/log.c:231 | pinning by B_DIRTY makes the data the latest, and the disk may lag behind it |
| BufCache.BufCache.Bwrite | xv6_OS_Lab/Lab1+Lab2/xv6-public/bio.c:108-116 | disk and cache agree on the block again and the pin is gone; without the lock it panics |
| BufCache.BufCache.Modify | xv6_OS_Lab/Lab1+Lab2/xv6-public/log.c:204-212 | the holder of the lock may change the data; what the cache promises everybody else stays as it was |
| BufCache.BufCache.ReleaseSleep | xv6_OS_Lab/Lab1+Lab2/xv6-public/bio.c:126 | the holder's lock is dropped and the cache still has the latest data of every block |
| BufCache.BufCache.Unref | xv6_OS_Lab/Lab1+Lab2/xv6-public/bio.c:128-141 | the last reference moves the buffer to the front of the list and keeps the order of the others; any other leaves the list alone |
| BufCache.BufCache.Brelse | xv6_OS_Lab/Lab1+Lab2/xv6-public/bio.c:118-141 | both critical sections together; a caller that does not hold the lock panics |
| Ide.ReadsLastWrite | xv6_OS_Lab/Lab1+Lab2/xv6-public/memide.c:38-60 | on the synchronous disk a block holds the data of the last write to it, or what it held at the start |
| Ide.MemDisk.Rw | xv6_OS_Lab/Lab1+Lab2/xv6-public/memide.c:38-60 | a dirty buffer is written to its block and a clean one read from it; it is valid and clean afterwards |
| Ide.Driver.constructor | xv6_OS_Lab/Lab1+Lab2/xv6-public/ide.c:50-70 | the queue starts empty and the device idle |
| Ide.KeysApart | xv6_OS_Lab/Lab1+Lab2/xv6-public/ide.c:91 | buffers of the two disks for different blocks have different places on them |
| Ide.Driver.Start | xv6_OS_Lab/Lab1+Lab2/xv6-public/ide.c:79-99 | from the bytes put into registers 0x1f3 to 0x1f6 the device gets the drive and the block of the buffer, and the command by B_DIRTY |
| Ide.Driver.Append | xv6_OS_Lab/Lab1+Lab2/xv6-public/ide.c:151-155 | the pointer walk puts the buffer at the end of the queue, once |
| Ide.Driver.Submit | xv6_OS_Lab/Lab1+Lab2/xv6-public/ide.c:133-159 | the request goes to the end of the queue; the device works on the head exactly when there is one |
| Ide.Driver.Restart | xv6_OS_Lab/Lab1+Lab2/xv6-public/ide.c:126-128 | once the head is off the queue the device has the oldest request not yet served, and is idle exactly when there is none |
| Ide.Driver.Finish | xv6_OS_Lab/Lab1+Lab2/xv6-public/ide.c:94-99 | a finished write has put its data into its block, a finished read holds what its block holds |
| Ide.Driver.Complete | xv6_OS_Lab/Lab1+Lab2/xv6-public/ide.c:117-123 | the buffer becomes valid, clean and equal to its disk block; the other requests keep their order |
| Ide.Driver.Intr | xv6_OS_Lab/Lab1+Lab2/xv6-public/ide.c:102-131 | requests are served first in, first out; the result is what the synchronous disk gives when it does all requests in the order of the calls; an interrupt with an empty queue changes nothing |
| Ide.Driver.Return | xv6_OS_Lab/Lab1+Lab2/xv6-public/ide.c:161-167 | `iderw` returns only with the buffer valid, clean and equal to its disk block; otherwise the buffer is queued and the device is at work, so the wakeup will come |
| FsModel.Conservation | xv6_OS_Lab/Lab1+Lab2/xv6-public/fs.c:56-95 | a data block's bit is set exactly when some slot of some inode holds the block, and then exactly one does |
| FsModel.BitIs | xv6_OS_Lab/Lab1+Lab2/xv6-public/fs.c:64-68 | the bit of block b is bit b % 8, from the lowest, of byte b % 4096 / 8 of block bmapstart + b / 4096 |
| FileSys.MkfsLayout | xv6_OS_Lab/Lab1+Lab2/xv6-public/mkfs.c:83-95 | with the layout of `mkfs` the bitmap and inode blocks lie before the data, which starts behind the last bitmap block |
| FsModel.SlotsInjective | xv6_OS_Lab/Lab1+Lab2/xv6-public/fs.c:372-400 | two slots with the same block are the same slot of the same inode |
| FsModel.AllocInv | xv6_OS_Lab/Lab1+Lab2/xv6-public/fs.c:56-78 | `balloc`'s writes keep the invariant with one block not yet in a slot |
| FsModel.FreeInv | xv6_OS_Lab/Lab1+Lab2/xv6-public/fs.c:81-95 | the block in a slot has its bit set, and freeing it changes no slot |
| FsModel.WriteInv | xv6_OS_Lab/Lab1+Lab2/xv6-public/fs.c:498-504 | writing a file's data block changes no slot and no bit |
| FsModel.WriteBytes | xv6_OS_Lab/Lab1+Lab2/xv6-public/fs.c:498-504 | and of all bytes of all files only those of that block of that file |
| FsModel.WroteAll | xv6_OS_Lab/Lab1+Lab2/xv6-public/fs.c:481-511 | after the loop the file is the old one with src spliced in, and has no holes |
| FsModel.UpdateInv | xv6_OS_Lab/Lab1+Lab2/xv6-public/fs.c:220-236 | writing an inode back keeps the invariant |
| FsModel.MetaOfWords | xv6_OS_Lab/Lab1+Lab2/xv6-public/fs.c:298-306 | the 16 words that `iupdate` writes are read back as the same type, major, minor, nlink, size and addresses |
| FsModel.ContentsOnDisk | xv6_OS_Lab/Lab1+Lab2/xv6-public/fs.c:372-400 | the bytes a file stands for are those found on the disk alone, through the inode there, twelve direct blocks and the indirect one |
| FsModel.BitsWithout | xv6_OS_Lab/Lab1+Lab2/xv6-public/fs.c:407-435 | an inode's blocks lose their owner exactly where their bits are cleared |
| FsModel.TruncDone | xv6_OS_Lab/Lab1+Lab2/xv6-public/fs.c:407-435 | after the frees every slot of the inode is empty and every other file is as it was |
| FileSys.FileSys.Mkfs | xv6_OS_Lab/Lab1+Lab2/xv6-public/mkfs.c:237-251 | a disk whose one bitmap block marks all blocks below `used`, with files in the data blocks below it, satisfies the invariant that every operation keeps |
| FileSys.FileSys.Balloc | xv6_OS_Lab/Lab1+Lab2/xv6-public/fs.c:56-78 | the lowest block whose bit is clear: its bit alone is set and its 512 bytes are zero; none only when no bit is clear |
| FileSys.FileSys.Bfree | xv6_OS_Lab/Lab1+Lab2/xv6-public/fs.c:81-95 | clears that one bit; it panics exactly when the bit was clear |
| FileSys.FileSys.BmapAddr | xv6_OS_Lab/Lab1+Lab2/xv6-public/fs.c:377-386 | a missing direct or indirect block is allocated and owned; one that is there costs nothing |
| FileSys.FileSys.BmapEntry | xv6_OS_Lab/Lab1+Lab2/xv6-public/fs.c:387-396 | the same for an entry of the indirect block |
| FileSys.FileSys.Bmap | xv6_OS_Lab/Lab1+Lab2/xv6-public/fs.c:372-400 | the block of bn: address bn of the inode or word bn - 12 of the indirect block, with all other slots and bytes kept; at most one data block, one indirect block and their bitmap blocks are logged; it fails only on a full disk |
| FileSys.FileSys.Iupdate | xv6_OS_Lab/Lab1+Lab2/xv6-public/fs.c:220-236 | the type, device numbers, link count, size and addresses in memory are what a reader of the disk now finds for this inode; what it finds for others, and all other blocks, stay; one block is logged |
| FileSys.FileSys.ILock | xv6_OS_Lab/Lab1+Lab2/xv6-public/fs.c:298-311 | the inode in memory becomes the one on disk, so that it is the one last written back; the panic is exactly for type 0 |
| FileSys.FileSys.ReadBlock | xv6_OS_Lab/Lab1+Lab2/xv6-public/fs.c:469-474 | one turn of the loop moves the m bytes of the file at off, and allocates nothing |
| FileSys.FileSys.ReadFile | xv6_OS_Lab/Lab1+Lab2/xv6-public/fs.c:464-476 | exactly the bytes of the file in range, for every offset and length; it allocates and changes nothing in a file without holes |
| FileSys.FileSys.ReadI | xv6_OS_Lab/Lab1+Lab2/xv6-public/fs.c:452-476 | the same, and for a device what its driver answers, -1 without one |
| FileSys.FileSys.WriteBlock | xv6_OS_Lab/Lab1+Lab2/xv6-public/fs.c:498-504 | one turn of the loop advances the write by exactly m bytes, and logs a bitmap block only when the block was not mapped |
| FileSys.FileSys.WriteBlocks | xv6_OS_Lab/Lab1+Lab2/xv6-public/fs.c:498-504 | the whole loop, and the bound on the blocks it logs: a turn that starts inside a block allocates nothing |
| FileSys.FileSys.WriteFile | xv6_OS_Lab/Lab1+Lab2/xv6-public/fs.c:493-511 | the file becomes the old one with src spliced in at off, size the larger of old size and end, in memory and as read from the disk alone; other files, the bitmap's meaning and the other inodes on disk are kept; -1 exactly for the refused ranges; None only on a full disk |
| FileSys.FileSys.WriteI | xv6_OS_Lab/Lab1+Lab2/xv6-public/fs.c:481-511 | the same, and for a device what its driver answers, -1 without one |
| FileSys.FileSys.ItruncAddr | xv6_OS_Lab/Lab1+Lab2/xv6-public/fs.c:413-418 | a direct block or the indirect block is freed once and its slot emptied |
| FileSys.FileSys.ItruncEntries | xv6_OS_Lab/Lab1+Lab2/xv6-public/fs.c:420-426 | every listed block is freed once |
| FileSys.FileSys.Itrunc | xv6_OS_Lab/Lab1+Lab2/xv6-public/fs.c:407-435 | exactly this inode's bits are cleared, every slot of it is empty, the panic `freeing free block` is not reached, other files are kept, and on disk the inode has size 0 and no address, its other fields as before |
| File.SpliceSplice | xv6_OS_Lab/Lab1+Lab2/xv6-public/file.c:133-153 | two adjacent writes are one write of the joined bytes |
| File.WriteChunk | xv6_OS_Lab/Lab1+Lab2/xv6-public/file.c:140-151 | one transaction writes its chunk whole and logs at most MAXOPBLOCKS distinct blocks, whatever the offset and the allocation pattern |
| File.FileWrite | xv6_OS_Lab/Lab1+Lab2/xv6-public/file.c:117-156 | the chunks together splice the written prefix of the buffer into the file, in memory and as read from the disk alone; n is returned exactly when the file is writable and the range fits; `short filewrite` is not reached |
| Umalloc.InsertedUnits | xv6_OS_Lab/Lab1+Lab2/xv6-public/umalloc.c:33-42 | insertion with coalescing adds exactly the block's units to the free ones |
| Umalloc.InsertedSorted | xv6_OS_Lab/Lab1+Lab2/xv6-public/umalloc.c:33-42 | the list stays in address order and no two neighbours stay unmerged |
| Umalloc.SplicedOk | xv6_OS_Lab/Lab1+Lab2/xv6-public/umalloc.c:33-42 | after the header writes the pointers in memory are those of the new list, round through base |
| Umalloc.SpotTest | xv6_OS_Lab/Lab1+Lab2/xv6-public/umalloc.c:30-32 | the two exit tests of the search hold at the insertion point and nowhere else |
| Umalloc.FindSpot | xv6_OS_Lab/Lab1+Lab2/xv6-public/umalloc.c:30-32 | there is an insertion point, and only one, so the search ends there |
| Umalloc.CutOk | xv6_OS_Lab/Lab1+Lab2/xv6-public/umalloc.c:79-81 | cutting the tail off a block keeps the list |
| Umalloc.CutUnits | xv6_OS_Lab/Lab1+Lab2/xv6-public/umalloc.c:79-81 | and splits its units exactly |
| Umalloc.RemoveOk | xv6_OS_Lab/Lab1+Lab2/xv6-public/umalloc.c:76-77 | unlinking a block taken whole keeps the list |
| Umalloc.RemoveUnits | xv6_OS_Lab/Lab1+Lab2/xv6-public/umalloc.c:76-77 | and removes exactly its units |
| Umalloc.NunitsHoldIff | xv6_OS_Lab/Lab1+Lab2/xv6-public/umalloc.c:69 | the block cut holds nbytes bytes exactly when the 32-bit sum does not wrap, and then no block one unit smaller would |
| Umalloc.ScanEnd | xv6_OS_Lab/Lab1+Lab2/xv6-public/umalloc.c:86 | once round the list without success means that no free block is large enough |
| Umalloc.ScanFits | xv6_OS_Lab/Lab1+Lab2/xv6-public/umalloc.c:74-75 | the block that passes the test is the first large enough from freep on, once round the list |
| Umalloc.Heap.Ring | xv6_OS_Lab/Lab1+Lab2/xv6-public/umalloc.c:24-44 | the free list in memory is a ring in address order through base, and no two of its blocks touch |
| Umalloc.Heap.OneBlock | xv6_OS_Lab/Lab1+Lab2/xv6-public/umalloc.c:24-90 | at any time each unit from sbrk is in exactly one block, free or live, and no block has any other |
| Umalloc.Heap.Free | xv6_OS_Lab/Lab1+Lab2/xv6-public/umalloc.c:24-44 | the search terminates, the block's units pass from live to free, every other live block is kept |
| Umalloc.Heap.Coalesce | xv6_OS_Lab/Lab1+Lab2/xv6-public/umalloc.c:33-43 | the list becomes the one with the block inserted and merged on both sides |
| Umalloc.Heap.Morecore | xv6_OS_Lab/Lab1+Lab2/xv6-public/umalloc.c:46-61 | the new units join the free list merged, and a block large enough is on it; on failure nothing changes |
| Umalloc.Heap.Take | xv6_OS_Lab/Lab1+Lab2/xv6-public/umalloc.c:75-84 | n units move from the free list to a live block that no other block shares |
| Umalloc.Heap.Malloc | xv6_OS_Lab/Lab1+Lab2/xv6-public/umalloc.c:63-90 | it terminates, takes the tail of the first free block that fits, asks sbrk at most once and only when none does, fails exactly when sbrk does, and returns a block of its arena apart from every live one; the arena grows by exactly the units asked from sbrk, and every unit of it stays in exactly one block, free or live |
| Vm.SetPteAt | xv6_OS_Lab/Lab1+Lab2/xv6-public/vm.c:31-55 | writing one page table entry changes that page of that directory and no other page of any |
| Vm.MapOk | xv6_OS_Lab/Lab1+Lab2/xv6-public/vm.c:69-73 | a mapped frame has exactly one user page |
| Vm.UnmapOk | xv6_OS_Lab/Lab1+Lab2/xv6-public/vm.c:270-275 | an unmapped page's frame is that page's and nobody else's |
| Vm.InstallOk | xv6_OS_Lab/Lab1+Lab2/xv6-public/vm.c:44-52 | a new page table is one frame of one directory slot |
| Vm.NoSharing | xv6_OS_Lab/Lab1+Lab2/xv6-public/vm.c:221-345 | two user pages never share a frame, and no user frame is free, a directory, a table or the kernel's |
| Vm.TranslateIs | xv6_OS_Lab/Lab1+Lab2/xv6-public/vm.c:38-54 | the hardware's walk through both levels allows what the entry of the page allows: every directory entry lets all accesses through |
| Vm.StableAccess | xv6_OS_Lab/Lab1+Lab2/xv6-public/vm.c:31-345 | no operation changes what the hardware makes of any address outside its range, or of any other directory |
| Vm.KernelAccess | xv6_OS_Lab/Lab1+Lab2/xv6-public/vm.c:105-115 | what the hardware makes of each kernel address: physical memory from KERNBASE on, text and constants read-only, devices in place, nothing for the user |
| Vm.ReleasedFrames | xv6_OS_Lab/Lab1+Lab2/xv6-public/vm.c:281-298 | `freevm` gives back the directory, every table it lists and every user page, and nothing else |
| Vm.RolledBack | xv6_OS_Lab/Lab1+Lab2/xv6-public/vm.c:235-246 | after a failed `allocuvm` the pages and user frames are exactly those from before |
| Vm.KernelPteNext | xv6_OS_Lab/Lab1+Lab2/xv6-public/vm.c:105-115 | each row of kmap maps its own pages to the frames it names and no page of another row |
| Vm.TablesBound | xv6_OS_Lab/Lab1+Lab2/xv6-public/vm.c:129-134 | the kernel part never takes more than 66 page tables |
| Vm.SkipTable | xv6_OS_Lab/Lab1+Lab2/xv6-public/vm.c:266-268 | where a table is missing, none of the pages up to the next 4 MB is mapped, so the skip misses none |
| Vm.ChainPush | xv6_OS_Lab/Lab1+Lab2/xv6-public/kalloc.c:72-74 | with the freed frame's first word linked to the old head, the chain of links is the list with that frame in front |
| Vm.ChainPop | xv6_OS_Lab/Lab1+Lab2/xv6-public/kalloc.c:89-91 | the head is 0 exactly for an empty list, and its first word heads the chain of the rest |
| Vm.Machine.Kfree | xv6_OS_Lab/Lab1+Lab2/xv6-public/kalloc.c:59-77 | the frame goes to the head of the free list, filled with junk and the link to the frame before, and every frame keeps one use |
| Vm.Machine.Kalloc | xv6_OS_Lab/Lab1+Lab2/xv6-public/kalloc.c:82-95 | the head of the free list, read from kmem.freelist and relinked to its first word, or 0 exactly when the list is empty |
| Vm.Machine.FreeRange | xv6_OS_Lab/Lab1+Lab2/xv6-public/kalloc.c:46-53 | exactly the whole frames between the two addresses become free, wherever the addresses lie |
| Vm.Machine.Walk | xv6_OS_Lab/Lab1+Lab2/xv6-public/vm.c:32-55 | finds the table of a page, or makes it when asked, and the directory entry is the table's frame with PTE_P, PTE_W and PTE_U; no page of any directory is mapped, unmapped or moved; it fails only without a free frame |
| Vm.Machine.MapPage | xv6_OS_Lab/Lab1+Lab2/xv6-public/vm.c:68-73 | one page is mapped and no other touched; it fails only without a free frame |
| Vm.Machine.MapPages | xv6_OS_Lab/Lab1+Lab2/xv6-public/vm.c:57-80 | the pages map in order to the frames in order, the prefix done is told on failure, and no more tables are used than the range needs |
| Vm.Machine.SetupKvm | xv6_OS_Lab/Lab1+Lab2/xv6-public/vm.c:117-136 | the hardware finds every kernel address where kmap says with the rights it says, and nothing for the user or below KERNBASE; on failure, which needs fewer than 67 free frames, no frame is lost |
| Vm.Machine.UnmapPage | xv6_OS_Lab/Lab1+Lab2/xv6-public/vm.c:269-276 | the page's frame becomes free and only that page changes |
| Vm.Machine.DeallocUvm | xv6_OS_Lab/Lab1+Lab2/xv6-public/vm.c:251-279 | the hardware finds nothing any more in the range, with the 4 MB skips, and every frame it found there is free; only those pages change |
| Vm.Machine.FillPage | xv6_OS_Lab/Lab1+Lab2/xv6-public/vm.c:234-246 | a fresh frame with the given contents is mapped at the page; on failure nothing is |
| Vm.Machine.AllocUvm | xv6_OS_Lab/Lab1+Lab2/xv6-public/vm.c:219-249 | every address of the new range is one the hardware lets the user read and write, on zeroed frames of their own, and all else is kept; it fails only for want of frames (never with two free ones a page), and then maps nothing in the range |
| Vm.Machine.FreeVm | xv6_OS_Lab/Lab1+Lab2/xv6-public/vm.c:281-298 | every frame of the directory, its tables, user pages and itself, becomes free, and no other frame in use changes |
| Vm.Machine.CopyUvm | xv6_OS_Lab/Lab1+Lab2/xv6-public/vm.c:313-345 | for every address below sz and every kind of access the hardware lets the child do what it lets the parent do, with the same contents on frames of their own; the parent is untouched, nothing beyond sz is mapped; on failure the free frames are those from before |
| ProcTable.ProcTable.constructor | xv6_OS_Lab/Lab1+Lab2/xv6-public/proc.c:125-159 | the table after the first process is set up satisfies the invariant |
| ProcTable.ProcTable.Between | xv6_OS_Lab/Lab1+Lab2/xv6-public/proc.c:72-524 | what the invariant says: pids are unique and none comes back, a process runs on one CPU at most, every process in use but init has a living parent, nobody waits who has a zombie to reap |
| ProcTable.Pick | xv6_OS_Lab/Lab1+Lab2/xv6-public/proc.c:347-363 | the loop picks a RUNNABLE process, and it is the first of least burst_time unless, and only unless, that one has burst_time -1 and another RUNNABLE process follows it: -1 is the loop's own mark for none yet |
| ProcTable.SentinelExample | xv6_OS_Lab/Lab1+Lab2/xv6-public/proc.c:353-357 | a table on which the choice is wrong |
| ProcTable.Wakeup1 | xv6_OS_Lab/Lab1+Lab2/xv6-public/proc.c:484-492 | every SLEEPING process on this channel, whatever channel it is, becomes RUNNABLE, and every other slot is what it was |
| ProcTable.Orphan | xv6_OS_Lab/Lab1+Lab2/xv6-public/proc.c:260-268 | the children pass to init, which wakes exactly if one of them is a zombie |
| ProcTable.AliveKeeps | xv6_OS_Lab/Lab1+Lab2/xv6-public/proc.c:412-501 | changes among living states keep pids, parents and embryos right |
| ProcTable.Reap | xv6_OS_Lab/Lab1+Lab2/xv6-public/proc.c:292-304 | a reaped slot is free, its pid was not reaped before and is not given out again |
| ProcTable.ExitKeeps | xv6_OS_Lab/Lab1+Lab2/xv6-public/proc.c:233-273 | exit leaves every published process with a living parent and no zombie child of a process asleep in wait |
| ProcTable.ProcTable.AllocProc | xv6_OS_Lab/Lab1+Lab2/xv6-public/proc.c:76-95 | the first free slot becomes an embryo with a pid that no process has or had; -1 exactly when no slot is free |
| ProcTable.ProcTable.ForkFailed | xv6_OS_Lab/Lab1+Lab2/xv6-public/proc.c:198-203 | the embryo's slot is free again |
| ProcTable.ProcTable.FinishFork | xv6_OS_Lab/Lab1+Lab2/xv6-public/proc.c:204-227 | the child is published RUNNABLE with its maker as parent |
| ProcTable.ProcTable.Yield | xv6_OS_Lab/Lab1+Lab2/xv6-public/proc.c:413-419 | the process is RUNNABLE on no CPU and its CPU's scheduler holds the lock |
| ProcTable.ProcTable.Sleep | xv6_OS_Lab/Lab1+Lab2/xv6-public/proc.c:445-479 | the process sleeps on the channel on no CPU; nothing happens between the lock and the sleep |
| ProcTable.ProcTable.Wakeup | xv6_OS_Lab/Lab1+Lab2/xv6-public/proc.c:496-501 | every SLEEPING process on this channel, whatever channel it is, becomes RUNNABLE with its other fields kept, and every other slot is what it was |
| ProcTable.ProcTable.Kill | xv6_OS_Lab/Lab1+Lab2/xv6-public/proc.c:507-524 | a slot in use is marked, and made RUNNABLE if it slept, exactly when it has the pid; when none has, the first free slot that still holds the number is; -1 exactly when no slot does |
| ProcTable.ProcTable.KillThenFork | xv6_OS_Lab/Lab1+Lab2/xv6-public/proc.c:507-524 | if the first free slot is the first to hold the number, `kill` succeeds and the next child anyone forks is born killed, with a pid never passed to `kill` |
| ProcTable.BornKilled | xv6_OS_Lab/Lab1+Lab2/xv6-public/proc.c:86-95 | a run from boot: the first process kills process 0, forks, and its child 2 is killed |
| ProcTable.ProcTable.Exit | xv6_OS_Lab/Lab1+Lab2/xv6-public/proc.c:255-273 | exactly the sleepers on the parent, and on init if a zombie child is left behind, become RUNNABLE; exactly its children pass to init; the process is a zombie on no CPU, and the invariant is kept |
| ProcTable.ProcTable.Wait | xv6_OS_Lab/Lab1+Lab2/xv6-public/proc.c:278-317 | a zombie child is reaped exactly when there is one, the first in the table, its pid never returned before; otherwise -1, or sleep with no zombie child |
| ProcTable.ProcTable.Dispatch | xv6_OS_Lab/Lab1+Lab2/xv6-public/proc.c:343-378 | the process chosen runs on this CPU and no other; it is the first of least burst_time under the condition of Pick |
| ProcTable.ProcTable.SchedAcquire | xv6_OS_Lab/Lab1+Lab2/xv6-public/proc.c:342 | an idle CPU's scheduler takes the table lock |
| ProcTable.ProcTable.SchedRelease | xv6_OS_Lab/Lab1+Lab2/xv6-public/proc.c:381 | and gives it back with the invariant kept |
| ProcTable.ProcTable.SetBurst | xv6_OS_Lab/Lab1+Lab2/xv6-public/proc.c:597-605 | any burst_time, -1 too, may be set without the lock, and the invariant is kept |
| SleepLock.StepInv | xv6_OS_Lab/Lab1+Lab2/xv6-public/sleeplock.c:22-42 | every interleaving of the two spin locks keeps the invariant |
| SleepLock.RunInv | xv6_OS_Lab/Lab1+Lab2/xv6-public/sleeplock.c:22-42 | so it holds at the end of every run of any number of processes |
| SleepLock.MutualExclusion | xv6_OS_Lab/Lab1+Lab2/xv6-public/sleeplock.c:22-42 | at most one process is between acquire and release, and the lock's fields name it |
| SleepLock.NoLostWakeup | xv6_OS_Lab/Lab1+Lab2/xv6-public/proc.c:444-501 | when the inner lock is free and the lock not held, nobody is asleep on it or about to be |
| SleepLock.SleeperHasWaker | xv6_OS_Lab/Lab1+Lab2/xv6-public/proc.c:444-501 | a sleeper always has another process that is to wake it |
| SleepLock.SomeoneCanStep | xv6_OS_Lab/Lab1+Lab2/xv6-public/proc.c:444-501 | the two spin locks never deadlock |
| SleepLock.AcquireFree | xv6_OS_Lab/Lab1+Lab2/xv6-public/sleeplock.c:22-32 | with the spin locks free, a process that finds the lock free has it after three steps of its own |
| SleepLock.AcquireHeld | xv6_OS_Lab/Lab1+Lab2/xv6-public/proc.c:444-477 | one that finds it held is asleep after five, and has let both spin locks go |
| SleepLock.Release | xv6_OS_Lab/Lab1+Lab2/xv6-public/sleeplock.c:34-42 | and the holder has let it go after six, with every sleeper runnable again |
| Pipe.Pipe.constructor | xv6_OS_Lab/Lab1+Lab2/xv6-public/pipe.c:36-44 | a new pipe is empty and open at both ends |
| Pipe.Pipe.CountersTell | xv6_OS_Lab/Lab1+Lab2/xv6-public/pipe.c:85-106 | the tests on the wrapped 32-bit counters tell full and empty right |
| Pipe.Pipe.Deposit | xv6_OS_Lab/Lab1+Lab2/xv6-public/pipe.c:93 | a byte joins the end of the stream and none unread is overwritten |
| Pipe.Pipe.TakeOne | xv6_OS_Lab/Lab1+Lab2/xv6-public/pipe.c:116 | the oldest unread byte is taken |
| Pipe.Pipe.WriteTurn | xv6_OS_Lab/Lab1+Lab2/xv6-public/pipe.c:78-98 | as many bytes as fit are deposited in order; the turn ends in return, failure or sleep exactly as the source's tests say; a reader asleep on the empty pipe is left asleep over bytes if and only if the writer brings more than 512 of them and is killed or has no reading end |
| Pipe.StrandedReader | xv6_OS_Lab/Lab1+Lab2/xv6-public/pipe.c:84-92 | such a run: empty pipe, sleeping reader, killed writer of 513 bytes; the reader sleeps on beside a full ring |
| Pipe.Pipe.ReadTurn | xv6_OS_Lab/Lab1+Lab2/xv6-public/pipe.c:100-121 | what is read is the next of what was deposited; no writer is left asleep over a pipe that is not full |
| Pipe.Pipe.Close | xv6_OS_Lab/Lab1+Lab2/xv6-public/pipe.c:59-75 | closing an end wakes the other side; the pipe is freed exactly when both are closed |
| Pipe.Pipe.Woken | xv6_OS_Lab/Lab1+Lab2/xv6-public/proc.c:507-524 | a sleeper that is killed leaves nobody stuck |
| Pipe.Pipe.NoDeadlock | xv6_OS_Lab/Lab1+Lab2/xv6-public/pipe.c:78-121 | readers and writers never sleep at the same time |
| Pipe.Slot | xv6_OS_Lab/Lab1+Lab2/xv6-public/pipe.c:93-116 | 512 divides 2^32, so a wrapped counter still names the right place |
| Swapper.UnlinkLinked | xv6_OS_Lab/Lab3/OS3-main/xv6-public/vm.c:594-625 | taking an entry out leaves the others a doubly linked list in the same order |
| Swapper.PushLinked | xv6_OS_Lab/Lab3/OS3-main/xv6-public/vm.c:752-760 | a new tail keeps the list doubly linked and acyclic |
| Swapper.ListCount | xv6_OS_Lab/Lab3/OS3-main/xv6-public/vm.c:479-544 | the list's length is the number of resident entries |
| Swapper.AddExact | xv6_OS_Lab/Lab3/OS3-main/xv6-public/vm.c:479-544 | adding a page keeps list and counters right if and only if its address is not tracked and the entry chosen is unused; otherwise no list whatever agrees with the counters |
| Swapper.AddTwiceExample | xv6_OS_Lab/Lab3/OS3-main/xv6-public/vm.c:500-541 | a table for which adding a page fails: the one resident page added again, after which two pages are counted and no list has two |
| Swapper.TickVictim | xv6_OS_Lab/Lab3/OS3-main/xv6-public/proc.c:632-678 | right after a tick the victim is the head of the list if and only if the 32-bit clock did not wrap while numbering it |
| Swapper.Room | xv6_OS_Lab/Lab3/OS3-main/xv6-public/vm.c:517-524 | with fewer pages tracked than entries there is an unused entry, and entry 0 is unused when nothing is tracked |
| Swapper.Pages.Books | xv6_OS_Lab/Lab3/OS3-main/xv6-public/vm.c:479-815 | the two counters are the numbers of entries in memory and in the file, and the tracked addresses are different |
| Swapper.Pages.constructor | xv6_OS_Lab/Lab3/OS3-main/xv6-public/proc.c:125-141 | a reset process has an empty list and no page in memory or file |
| Swapper.Pages.FindAddress | xv6_OS_Lab/Lab3/OS3-main/xv6-public/vm.c:778-785 | the first entry that tracks the address, or none does |
| Swapper.Pages.Tail | xv6_OS_Lab/Lab3/OS3-main/xv6-public/vm.c:494-500 | the walk along next ends at the last entry |
| Swapper.Pages.AddNewPage | xv6_OS_Lab/Lab3/OS3-main/xv6-public/vm.c:479-544 | the entry holds the page, with counter 0, and joins the end of the list; the other entries keep their data; the books stay right under the exact condition of AddExact |
| Swapper.Pages.ChoosePage | xv6_OS_Lab/Lab3/OS3-main/xv6-public/vm.c:628-651 | the first entry of the list with the least counter, or none for an empty list |
| Swapper.Pages.UpdateListPointers | xv6_OS_Lab/Lab3/OS3-main/xv6-public/vm.c:594-625 | the entry is off the list, the rest keeps its order, no data changes |
| Swapper.Pages.Mem2File | xv6_OS_Lab/Lab3/OS3-main/xv6-public/vm.c:560-592 | the page is in the file and off the list, the counters moved by one; a failed write changes nothing |
| Swapper.Pages.File2Mem | xv6_OS_Lab/Lab3/OS3-main/xv6-public/vm.c:702-766 | the page is resident and last on the list, the counters moved by one; a page that is not in the file changes nothing |
| Swapper.Pages.SwapPages | xv6_OS_Lab/Lab3/OS3-main/xv6-public/vm.c:769-815 | the faulting page comes in, the least used of the pages that were in goes out, both counters stay; -1 exactly when the address is not tracked, with nothing changed |
| Swapper.Pages.DeletePage | xv6_OS_Lab/Lab3/OS3-main/xv6-public/vm.c:817-854 | the page's entry is free and off the list; while pages are in the file, one takes its place |
| Swapper.Pages.DropSwapped | xv6_OS_Lab/Lab3/OS3-main/xv6-public/vm.c:333-354 | a page in the file is forgotten and the file's count with it |
| Swapper.Pages.MakeRoom | xv6_OS_Lab/Lab3/OS3-main/xv6-public/vm.c:251-264 | room fails exactly at the limit of both counters or on a failed write; else one page, the least used, has gone to the file if memory was full |
| Swapper.Pages.AllocStep | xv6_OS_Lab/Lab3/OS3-main/xv6-public/vm.c:247-281 | a process with pid > 2 never has more than MAX_PSYC_PAGES resident nor MAX_TOTAL_PAGES - MAX_PSYC_PAGES in the file; a free entry is always found; the step succeeds exactly when there is room, a frame and a page table |
| Swapper.Pages.Tick | xv6_OS_Lab/Lab3/OS3-main/xv6-public/proc.c:643-654 | the j-th resident page gets the number time + j modulo 2^32, and no other entry changes |
| Shell.GetToken | xv6_OS_Lab/Lab1+Lab2/xv6-public/sh.c:265-308 | the token at this position and the position after the space that follows it |
| Shell.TokenIs | xv6_OS_Lab/Lab1+Lab2/xv6-public/sh.c:265-308 | the token at a position, character by character: the space skipped, symbols alone, >> together, and words up to the next space or symbol |
| Shell.LexIs | xv6_OS_Lab/Lab1+Lab2/xv6-public/sh.c:265-308 | the tokens of a line are found one behind the other |
| Shell.Peek | xv6_OS_Lab/Lab1+Lab2/xv6-public/sh.c:310-320 | skips space, changes no token, and tells whether the next character is one of those asked for |
| Shell.ParseRedirs | xv6_OS_Lab/Lab1+Lab2/xv6-public/sh.c:374-397 | the redirections consumed wrap the command in order; a wanted derivation's redirections are all taken |
| Shell.GetRedir | xv6_OS_Lab/Lab1+Lab2/xv6-public/sh.c:379-394 | one redirection: its operator and its file, the one a wanted derivation begins with |
| Shell.ParseArgs | xv6_OS_Lab/Lab1+Lab2/xv6-public/sh.c:426-445 | an accepted simple command is derived by the grammar, its words in argv in order |
| Shell.ParseExec | xv6_OS_Lab/Lab1+Lab2/xv6-public/sh.c:415-446 | a block or a simple command, whichever the next token begins |
| Shell.ParseBlock | xv6_OS_Lab/Lab1+Lab2/xv6-public/sh.c:399-413 | a parenthesised line with its redirections |
| Shell.ParsePipe | xv6_OS_Lab/Lab1+Lab2/xv6-public/sh.c:361-372 | a derivation of exactly the tokens consumed whose tree is the command, found whenever there is one |
| Shell.ParseLine | xv6_OS_Lab/Lab1+Lab2/xv6-public/sh.c:344-359 | the same for line -> pipe {&} [; line] |
| Shell.ParseAll | xv6_OS_Lab/Lab1+Lab2/xv6-public/sh.c:327-339 | a line is accepted if and only if the grammar derives its whole token sequence with fewer than MAXARGS words in each simple command; the tree is that of its one derivation. Independently of that grammar: the line is accepted if and only if its tokens say a command (by the symbols outside parentheses, `;` binding least, then `&`, the bar and redirections) within the limit, and the tree is the one command they say |
| Shell.SaysOne | xv6_OS_Lab/Lab1+Lab2/xv6-public/sh.c:327-446 | a list of tokens says at most one command |
| Shell.LineSays | xv6_OS_Lab/Lab1+Lab2/xv6-public/sh.c:344-446 | the tree of a derivation is the command that its tokens say: the left side of a bar or `;` stands before the symbol and the right side after it, redirections stand in order with their operators, each `&` counts |
| Shell.DeriveLine | xv6_OS_Lab/Lab1+Lab2/xv6-public/sh.c:344-446 | whatever tokens say, the grammar derives |
| Shell.SaysWords | xv6_OS_Lab/Lab1+Lab2/xv6-public/sh.c:344-446 | every word of the line is an argument or a file name of its command |
| Shell.OneLine | xv6_OS_Lab/Lab1+Lab2/xv6-public/sh.c:344-359 | the grammar is unambiguous: two derivations that begin the same tokens, each before the end of the line or a closing parenthesis, are the same |
| Shell.OneSimple | xv6_OS_Lab/Lab1+Lab2/xv6-public/sh.c:399-446 | the same for blocks and simple commands |
| Shell.LexSpread | xv6_OS_Lab/Lab1+Lab2/xv6-public/sh.c:265-308 | tokens lie in order and a word is never directly followed by a word |
| Shell.WordsApart | xv6_OS_Lab/Lab1+Lab2/xv6-public/sh.c:448-493 | the end of one word never lies inside another |
| Shell.LineWords | xv6_OS_Lab/Lab1+Lab2/xv6-public/sh.c:344-359 | every argument and file name in a tree is a word of the line |
| Shell.NulTerminate | xv6_OS_Lab/Lab1+Lab2/xv6-public/sh.c:448-493 | the buffer becomes NUL at the ends of arguments and file names and nowhere else |
| Shell.ParseCmd | xv6_OS_Lab/Lab1+Lab2/xv6-public/sh.c:327-342 | the same, and after it every word of the line, and every argument and file name of the tree, read as a C string from its start, is the slice it was parsed from; a refused line leaves the buffer alone |
| Grep.MatchesNil | xv6_OS_Lab/Lab1+Lab2/xv6-public/grep.c:87-92 | the empty pattern matches anywhere, with `$` only at the end |
| Grep.MatchesCons | xv6_OS_Lab/Lab1+Lab2/xv6-public/grep.c:89-94 | a pattern matches when its first atom takes a prefix and the rest matches after it |
| Grep.MatchHere | xv6_OS_Lab/Lab1+Lab2/xv6-public/grep.c:84-96 | 1 exactly when the pattern matches at the start of the text, and it terminates |
| Grep.MatchStar | xv6_OS_Lab/Lab1+Lab2/xv6-public/grep.c:98-106 | 1 exactly when some run of c, of any length, is followed by a match |
| Grep.Match | xv6_OS_Lab/Lab1+Lab2/xv6-public/grep.c:72-82 | 1 exactly when the declared meaning of literals, `.`, `c*`, leading `^` and final `$` matches some substring, anchored where it must be |
| Grep.HereIs | xv6_OS_Lab/Lab1+Lab2/xv6-public/grep.c:84-106 | the declared meaning, character by character: the end of the pattern matches, `$` only the end of the text, c* any run of c, `.` and any other character one character |
| Grep.PlainMatches | xv6_OS_Lab/Lab1+Lab2/xv6-public/grep.c:72-96 | a pattern of plain characters and dots is found exactly where it stands in the text, at its start after `^`, at its end before `$` |

## Left out

- Hardware and foreign code: assembly, boot, APIC, UART, keyboard, console, IDE ports but for the four that select a block, TSS and GDT, `swtch`, register contents; memory-model effects below the atomic exchange: a spin lock is atomic.
- `Log`: a device block write is one atomic step, and a crash forgets memory and keeps the disk. The change of a buffer's data and the locked part of `log_write` are one step.
- Log.Log.WriteAppend: an append past the header's array is a precondition; operations within their reservations never make one (`LogMachine.ArrayHolds`).
- `Log` and `FileSys` are separate: a file operation is shown to stay within the reservation that the log model assumes, and each is verified on its own; the interleaving of two file operations inside one transaction is taken to be kept apart by inode locks.
- FileSys.FileSys.WriteI: files with holes, as for ReadI; what the file system looks like after the panic of a full disk is not stated, only that the disk is full.
- FileSys.FileSys.ReadI: that the file has no holes below its size is a precondition of it and of WriteI. WriteI keeps it, but `mkfs` can break it for the root directory, whose size it rounds up. What a device driver does is a parameter.
- FileSys.FileSys.Mkfs: `iappend`, which fills the data blocks in order, is a precondition on the image.
- Directories, path names, link counts, `ialloc`, `iget`, `iput` and the inode cache; `ilock` is modelled from where it finds the inode not in memory.
- BufCache.BufCache.Bread: waiting for a buffer that another process holds is the sleep lock's, modelled in `SleepLock`; here the lock is free. The buffer (0, 0) that every buffer starts as is outside the coherence claims.
- Ide.Driver.Submit: the panics of `iderw` and `idestart` (buffer not locked, nothing to do, no second disk, block number out of range) are preconditions, and the device reports no error.
- Umalloc.Heap.Malloc: sbrk's answer is a parameter, aligned and above all earlier memory; requests of 2^31 bytes or more, which sbrk would take as negative, are a precondition.
- Vm: `inituvm`, `loaduvm`, `clearpteu`, `copyout`, `switchuvm`. Sizes are up to KERNBASE. The panics of `mappages` (remap) and `copyuvm` (page absent) are preconditions. Frames that other CPUs take or free in the middle of an operation are not modelled. `deallocuvm` clears the entry just before instead of just after it frees the frame.
- ProcTable: kernel stacks, open files, names, trap frames, `growproc`, information system calls. The unlocked write of the parent in `fork` and the locked publication are one step; nobody but the maker compares with that parent before. `pid` is unbounded.
- ProcTable.ProcTable.Sleep: channels other than that of `wait` are opaque names, and the caller's own lock is not modelled here but in `SleepLock`.
- Fairness: shortest burst first starves by design.
- Pipe: that a turn is atomic up to its sleep is what `SleepLock` shows of `sleep` and `wakeup`; `pipealloc` is left out.
- Swapper: swap-file contents and slots, which a comparison of an unsigned offset with -1 makes always the end of the file; page tables and frames; the exits of `allocuvm` that do not roll back; `exec` over addresses already tracked. Except where a parameter says so, file access succeeds. Counting pages back from a failed read is left out with it.
- Shell: running the commands is left out. A word is a maximal run of characters that are neither space nor symbol.
- Grep: the buffer loop around the matcher.
