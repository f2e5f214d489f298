# xv6 for RISC-V: a verified model

This project models the parts of the xv6 RISC-V kernel, of its user programs and of
`mkfs` in which correctness is hard to see, and proves what they promise.

- **Buffer cache and log** (`Bio`, `LogSpec`, `LogProtocol`, `Logging`). The cache is a
  ring of index-linked buffers over a disk with atomic block writes. `Logging` writes
  commit and recovery on top of it, with other processes reading before each of
  commit's breads, and shows that their disk writes are exactly the traces that
  `LogSpec` proves atomic under any number of crashes. `LogProtocol` is the
  begin/write/end/commit protocol as a state machine over all interleavings.
- **Page tables and the page allocator** (`PageTables`, `Memory`, `VmSpec`, `Vm`,
  `UserCopy`). Three-level tables in physical pages refine a flat map, and every page is
  free, a table, or user memory, on every success and failure path. Through that map,
  user memory is one string of bytes.
- **File system** (`Blocks`, `Bitmap`, `FsSpec`, `FsLog`, `FileSystem`, `DirSpec`,
  `Mkfs`, `FsRuns`, `InodeTable`). Block ownership and the bitmap; block maps, with and
  without holes, as byte strings; exactly which blocks reads and writes log;
  truncation; directories as finite maps; the first image, and runs on it; and the
  inode table's protocol over all interleavings.
- **Exit and wait** (`ExitWait`), **the virtio queue** (`Virtio`), **the K&R heap**
  (`Umalloc`), **the shell's parser** (`ShellParser`, `ShellTokens`, `ShellLex`), **grep** (`Grep`),
  **pipes and console input** (`Rings`).

## How to read it

Objects that the source updates in place are classes whose methods are the source's
functions (or their critical sections); the facts about them are lemmas over values.
Protocols are state machines: `Enabled`, `Step`, an invariant, a theorem about every
run, and one that says when a step is possible. A panic of the source is a precondition where callers must avoid it, and a
result where the code can reach it. How far user memory can be copied, when a process
is killed and what others read during commit are parameters.

## What was found

- The log that `mkfs` lays out holds one block less than `LOGSIZE`, so a write of a new
  block can hit "too big a transaction" although no operation exceeds its share; with
  one more block it cannot (`LogProtocol.NewBlockFits`, `LogProtocol.MkfsLogIsOneShort`).
  The guard also comes before absorption, so a write of a block that is already logged
  panics exactly when the log is full (`LogProtocol.LoggedBlockFits`,
  `LogProtocol.AbsorptionCanPanic`).
- `commit` comes to the panic "bget: no buffers" exactly when its pinned blocks and the
  buffers that other processes have in use are all there are (`Logging.Log.Commit`).
  `fileread` takes buffers without `begin_op`, and the log that `mkfs` lays out takes 29
  blocks, so one reader is enough once three operations have logged what their shares
  allow (`Logging.ReaderStopsCommit`); no system call is shown here to log that much. The
  disk still means the old or the new state throughout (`Logging.Log.CommitAtomically`).
- `filewrite`'s unit fits an operation at every offset of a file without holes, whatever
  the number of bitmap blocks (`FsLog.UnitFits`). On a disk with one bitmap block, such
  as `mkfs` makes, what a write logs is known exactly, and the largest unit that fits
  is 6145 bytes (`FsLog.SpaceExact`, `FsLog.OneMapUnit`); any larger write can log more
  than ten blocks (`FsRuns.TooLargeUnit`).
- `mkfs` leaves a hole in the root directory exactly when the number of its files is 62
  modulo 64 (`Mkfs.MakeImage`, `Mkfs.HoleIsReachable`). A read logs nothing if and only if
  every block that it comes to is present or the disk is full
  (`FileSystem.FileSys.Readi`); reading the last entry of such a root does log
  (`FsRuns.HoleIsLogged`), and since `fileread` opens no operation, that is the panic
  "log_write outside of trans" (kernel/log.c:222-223).
- The rule that iupdate follows every change of an inode (kernel/fs.c:222-224) is not kept
  by reads: `bmap` puts a new block number into the inode in memory only. So the copy of
  an inode that nobody has locked equals the inode on disk if and only if no such change is outstanding
  (`InodeTable.UnlockedCopy`), and a read leaves the disk behind if and only if the inode
  has no place for a block that it comes to and a block is to be had
  (`FileSystem.FileSys.Readi`, `FileSystem.FileSys.Dirlookup`). On the image of 62 files,
  looking up a missing name does it: a block is marked as in use that no inode on disk
  has (`FsRuns.LookupLeavesInodeBehind`), and when the last reference goes the block
  number is lost (`InodeTable.FillIsForgotten`).
- `iput` gives up its reference in a second critical section (kernel/fs.c:330-362). If the
  inode that it has just freed is reallocated in between, and the new owner gives it up
  unlinked before that, nobody frees it: an inode is orphaned if and only if its last
  reference goes in that second section, or by an `iput` of an inode never read in
  (`InodeTable.OrphanedExactly`, `InodeTable.ReallocatedIsOrphaned`).
- `malloc` of 2^27 units or more asks `sbrk` for something else than it means
  (`Umalloc.SbrkArgExact`, `Umalloc.SbrkForNothing`).
- When a user copy fails inside a block, `writei` leaves the bytes copied so far in the
  cache without logging them: the log misses a changed block if and only if some of
  those bytes differ and the block was neither new nor logged before
  (`FileSystem.FileSys.Writei`, `FsRuns.TornBlockIsNotLogged`).
- `grep` prints all matching complete lines of a file if and only if none of them lies
  at or after a line that, with its newline, exceeds 1023 characters or that holds a NUL
  (`Grep.PrintsAllExactlyWhen`, `Grep.LongLineEndsOutput`).
- `kill(0)` finds a free slot and marks it, and `allocproc` does not clear the mark, so
  the next process in that slot is born killed (`ExitWait.MarkOfFreeSlot`,
  `ExitWait.BornKilled`).
- A backspace takes back the last character typed unless that filled the console buffer
  (`Rings.EraseUndoes`).

## Model

| member | source | states |
|---|---|---|
| `Blocks.WordOfSetWord` | kernel/log.c:87-114 | a 32-bit word stored in a block reads back and no other word of the block changes |
| `Bio.PushFrontLinked` | kernel/bio.c:46-52 | inserting behind the head keeps one circular doubly linked ring |
| `Bio.UnlinkLinked` | kernel/bio.c:128-129 | taking a buffer out keeps one ring over the others |
| `Bio.Bcache.constructor` | kernel/bio.c:37-53 | all buffers in one ring, none caching anything, the view is the disk |
| `Bio.Bcache.FindCached` | kernel/bio.c:66-72 | the scan finds the one buffer of a block, or none if it is not cached |
| `Bio.Bcache.FindUnused` | kernel/bio.c:77-87 | the scan from the other end finds the least recently used unreferenced buffer, or none when all are referenced |
| `Bio.Bcache.Recycle` | kernel/bio.c:79-83 | a recycled buffer becomes the only one for its block |
| `Bio.Bcache.Bget` | kernel/bio.c:59-89 | hit: one more reference to the block's own buffer; miss: the least recently used unused one; failure if and only if neither exists |
| `Bio.Bcache.Bread` | kernel/bio.c:93-103 | the buffer comes back locked and valid with the latest contents of the block, whatever was evicted before; none if and only if the block is not cached and all buffers are referenced |
| `Bio.Bcache.Fill` | kernel/bio.c:98-101 | filling an invalid buffer from disk, or keeping a valid one, gives the latest contents |
| `Bio.Bcache.Bwrite` | kernel/bio.c:107-112 | exactly the buffer's block on disk changes, as one atomic write |
| `Bio.Bcache.MoveToFront` | kernel/bio.c:126-134 | the buffer becomes the most recently used and the ring stays a ring over the same buffers |
| `Bio.Bcache.Brelse` | kernel/bio.c:117-137 | lock and reference are given up; with the last reference the buffer becomes the most recently used, else the order stays |
| `Bio.Bcache.Unref` | kernel/bio.c:124-136 | the second half of brelse as its own step, so that others may come between |
| `Bio.Bcache.Bpin` | kernel/bio.c:140-144 | one more reference that keeps the buffer from eviction |
| `Bio.Bcache.Bunpin` | kernel/bio.c:147-151 | that reference is given back |
| `Bio.Bcache.RecyclingLosesNothing` | kernel/bio.c:77-84 | an unreferenced valid buffer equals the disk, so eviction loses no uncommitted data |
| `Bio.Bcache.NoBlockCachedTwice` | kernel/bio.c:59-89 | no two buffers hold the same block of a nonzero device |
| `Bio.Bcache.Step` | kernel/bio.c:59-151 | any client action keeps the invariants, changes the view only by a store, and reads the view |
| `Bio.Bcache.Run` | kernel/bio.c:59-151 | over every schedule of clients, each read returns what a plain array of blocks would hold after the stores so far; the ring is what the releases so far make of it |
| `Bio.RecycledIsOldest` | kernel/bio.c:74-87 | the buffer that bget recycles was released longer ago than any other unused one, or neither ever was |
| `Bio.ReleaseOrder` | kernel/bio.c:117-137 | of two buffers in the ring the one nearer to the front was released later, or neither was and they are in binit's order |
| `LogSpec.HeadRoundTrip` | kernel/log.c:87-114 | the header block read back gives the logged block numbers |
| `LogSpec.InstallIsIdempotent` | kernel/log.c:69-83 | installing any part of a committed transaction again does not change what the disk means |
| `LogSpec.RecoveryKeepsMeaning` | kernel/log.c:117-123 | after every disk write of recovery the disk means the same |
| `LogSpec.LoggedMeansOld` | kernel/log.c:179-191 | filling the log changes no home block's meaning |
| `LogSpec.CommittedMeansNew` | kernel/log.c:194-203 | the header write makes the whole transaction durable at once |
| `LogSpec.CommitIsAtomic` | kernel/log.c:194-203 | after each disk write of commit the disk means all of the old state before the header write, and all of the new state from then on |
| `LogSpec.CommitFinishes` | kernel/log.c:194-203 | a finished commit leaves the new contents in place and an empty log |
| `LogSpec.CommitTraceAt` | kernel/log.c:194-203 | the states between commit's disk writes, one by one |
| `LogSpec.RecoveryTraceAt` | kernel/log.c:117-123 | the states between recovery's disk writes, one by one |
| `LogSpec.HistoriesAreAtomic` | kernel/log.c:117-203 | over every history of commits and crashes, with any number of crashes inside recovery, the home blocks hold exactly the transactions whose header was written |
| `LogProtocol.EveryInterleaving` | kernel/log.c:127-235 | every interleaving keeps: commit only with no operation open, distinct logged blocks, log entries plus unspent reservations within LOGSIZE |
| `LogProtocol.InitInv` | kernel/log.c:55-65 | the invariant holds at the start |
| `LogProtocol.WholeOperationsCommit` | kernel/log.c:147-175 | all writes of an operation are in one and the same committed transaction |
| `LogProtocol.EndOpNeverPanics` | kernel/log.c:147-157 | an open operation never finds the log committing |
| `LogProtocol.BeginExactly` | kernel/log.c:127-142 | in every reachable state begin_op refuses if and only if a commit runs or the log could not hold what is logged and a full share for each operation and the new one |
| `LogProtocol.EndExactly` | kernel/log.c:147-175 | in every reachable state the last operation to end starts a commit and no other does; the commit is what was logged, and then the log is empty |
| `LogProtocol.WriteExactly` | kernel/log.c:215-235 | in every reachable state an open operation can log a block if and only if log and share have room; a block already logged is absorbed |
| `LogProtocol.JoinedCommit` | kernel/log.c:127-175 | a second operation joins a transaction that has entries, and one commit has both |
| `LogProtocol.BeginInTheEnd` | kernel/log.c:131-175 | from every reachable state, once the operations in progress end and the commit finishes, a process waiting in begin_op gets in |
| `LogProtocol.NewBlockFits` | kernel/log.c:215-235 | for an operation within its share the guard trips exactly at size - 1 entries, and never when the log has LOGSIZE + 1 blocks |
| `LogProtocol.LoggedBlockFits` | kernel/log.c:215-235 | for a block that is already logged the guard trips if and only if the log is full; with more than LOGSIZE blocks that is at LOGSIZE entries, when every open operation has used its whole share |
| `LogProtocol.MkfsLogIsOneShort` | mkfs/mkfs.c:25-25 | a run in which the log that mkfs makes is too small for a permitted write |
| `LogProtocol.AbsorptionCanPanic` | kernel/log.c:220-235 | a run in which a full log refuses a write that would be absorbed |
| `Logging.Log.WriteLog` | kernel/log.c:179-191 | while others read: a beginning of the log blocks gets the cached contents, one disk write each; all of them unless a sleep lock is held or no buffer is unused |
| `Logging.Log.constructor` | kernel/log.c:55-64 | an empty log that is not committing |
| `Logging.Log.WriteLogBlock` | kernel/log.c:183-190 | one block, with others reading before each bread: the cached home block goes to its log block in one disk write, or nothing is written |
| `Logging.BuffersLeft` | kernel/bio.c:77-88 | a buffer is left to recycle if and only if the pinned blocks and the buffers in use by others are fewer than NBUF |
| `Logging.Log.InstallTrans` | kernel/log.c:69-83 | while others read: a beginning of the home blocks gets the log's contents, one disk write each, and is unpinned; at boot nothing stops it |
| `Logging.Log.InstallBlock` | kernel/log.c:73-82 | one block: the log block goes home in one disk write and is unpinned, or nothing is written |
| `Logging.Log.ReadBoth` | kernel/log.c:73-75 | the two breads of a round, others reading before each: both buffers locked with the latest contents, nothing of the others' buffers disturbed; how it ends, if nobody comes between |
| `Logging.Log.Readers` | kernel/file.c:107-130 | any steps of processes that read keep what the committing process relies on, and its held buffers |
| `Logging.Log.ReaderGet` | kernel/bio.c:59-89 | so does a reader's bget, which may recycle any unused buffer |
| `Logging.Log.ReaderStep` | kernel/bio.c:93-137 | so does a reader's lock, disk read, unlock or release |
| `Logging.Log.ReadShared` | kernel/bio.c:93-103 | bread among readers: the latest contents, or a panic only if no buffer is unused, or a sleep only on a block outside the log |
| `Logging.Log.WaitFor` | kernel/bio.c:66-72 | a bread that must wait for a locked buffer has taken its reference, and only that has changed |
| `Logging.Log.WriteHead` | kernel/log.c:103-114 | one disk write puts the block numbers into the header, or nothing is written and no buffer was unused |
| `Logging.Log.ReadHead` | kernel/log.c:87-97 | the in-memory header is the one on disk, and nothing changes |
| `Logging.Log.Commit` | kernel/log.c:194-203 | whatever other processes read meanwhile, the disk writes are a beginning of the commit trace, all of it if it gets through; with the others at rest it panics if and only if logged blocks and buffers in use make up NBUF |
| `Logging.Log.CommitAtomically` | kernel/log.c:194-203 | at every disk write in commit, even of one that panics, the disk means the old disk or the cached view, the latter from the header write on |
| `Logging.Log.ViewIsTransaction` | kernel/log.c:205-235 | with readers about, what the cache shows is the disk with the transaction applied |
| `Logging.Log.Recover` | kernel/log.c:117-123 | recovery's disk writes are exactly the recovery trace |
| `Logging.Log.BeginOp` | kernel/log.c:127-142 | refused if and only if a commit runs or n + (outstanding + 1) * MAXOPBLOCKS exceeds LOGSIZE; else one more operation |
| `Logging.Log.LogWrite` | kernel/log.c:215-235 | refused exactly when n reaches LOGSIZE or size - 1; a logged block is absorbed, a new one appended; the block's buffer is pinned once and nothing else about the buffers changes |
| `Logging.Log.EndOp` | kernel/log.c:147-166 | one operation less; a commit starts if and only if that was the last |
| `Logging.Log.FinishOp` | kernel/log.c:167-174 | the last end_op: after commit the protocol's step is done, operations can begin, and every block's latest contents are at home; a commit that stops leaves the log closed |
| `Logging.ReaderStopsCommit` | kernel/log.c:179-191 | on any disk with the log of mkfs: three operations that log 29 blocks between them, one block held by a reader, and commit finds no buffer |
| `PageTables.TableIsUnique` | kernel/vm.c:86-103 | every table page is found by walking to the addresses it serves |
| `PageTables.NoSharing` | kernel/vm.c:86-103 | page tables are trees: no page serves two places |
| `PageTables.LeafIsSv39` | kernel/riscv.h:349-357 | the translation of every address below MAXVA is what the Sv39 walk finds in memory by three lookups: bits 30 to 37 index the root, 21 to 29 the next page, 12 to 20 the last, none where an entry on the way is not valid; inner entries are pointers |
| `PageTables.ThreeParts` | kernel/riscv.h:355-357 | every page below MAXVA has such a triple of indices |
| `PageTables.HangLeaf` | kernel/vm.c:92-100 | adding a table page changes no translation |
| `PageTables.SetLeafLeaf` | kernel/vm.c:144-172 | setting one entry changes exactly that translation of that table |
| `PageTables.WithoutTreeOk` | kernel/vm.c:279-294 | taking one tree out leaves the others trees |
| `PageTables.BelowAll` | kernel/vm.c:279-294 | the entries of a table lead to all tables below it, and never back to it |
| `VmSpec.OwnedOnce` | kernel/vm.c:186-198 | a mapped user page has no other use, so it can be freed |
| `VmSpec.SpaceFits` | kernel/vm.c:233-256 | an address space never has more pages than memory, so growing it stays below the trap frame |
| `Vm.Kernel.constructor` | kernel/kalloc.c:27-40 | after kinit the free list is all pages of the range, each once |
| `Vm.Kernel.PushFree` | kernel/kalloc.c:55-62 | the page is linked in front, and the list stays a list without repetition |
| `Vm.Kernel.Kfree` | kernel/kalloc.c:47-63 | the page goes to the front of the free list and nothing else changes |
| `Vm.Kernel.Kalloc` | kernel/kalloc.c:69-82 | a page nobody owns, or none if and only if the list is empty |
| `Vm.Kernel.Walk` | kernel/vm.c:86-103 | finds the last-level table of an address, which by `LeafIsSv39` is the page that two lookups give, adding tables if asked; no translation changes; with alloc it fails only when fewer than two pages are free |
| `Vm.Kernel.Lookup` | kernel/vm.c:86-103 | walk without allocation finds exactly the entry of the flat map, and nothing changes |
| `Vm.Kernel.GrowTable` | kernel/vm.c:95-100 | one new table page from the free list; no translation changes |
| `Vm.Kernel.Mappages` | kernel/vm.c:144-172 | success maps the pages to consecutive frames with the permissions and PTE_V, and changes no other translation; failure leaves exactly a beginning of that and the free list empty; at most two table pages go into each page mapped |
| `Vm.Kernel.MapPage` | kernel/vm.c:160-170 | one page: exactly its translation is set, or none changes and no page is free |
| `Vm.Kernel.Uvmunmap` | kernel/vm.c:178-199 | exactly the range loses its translations, and its pages go back to the free list if asked |
| `Vm.Kernel.UnmapPage` | kernel/vm.c:186-198 | one page: exactly its translation goes, and its page is freed if asked |
| `Vm.Kernel.FreeUserPage` | kernel/vm.c:193-196 | freeing a page that a mapping still refers to changes no translation |
| `Vm.Kernel.Uvmcreate` | kernel/vm.c:204-212 | a new tree without translations, or nothing changed and no page free |
| `Vm.Kernel.Uvmalloc` | kernel/vm.c:233-256 | success adds zeroed pages with PTE_V, PTE_R, PTE_U and the permissions asked for; failure restores every translation and happens only with fewer than three free pages for each page wanted; no page is lost |
| `Vm.Kernel.Uvmdealloc` | kernel/vm.c:263-274 | exactly the pages between the two sizes are unmapped and freed |
| `Vm.Kernel.Freewalk` | kernel/vm.c:279-294 | each table page below is freed exactly once and nothing else is touched |
| `Vm.Kernel.FreeEntry` | kernel/vm.c:282-292 | one entry of a table: exactly the tables below it are freed |
| `Vm.Kernel.Uvmfree` | kernel/vm.c:299-304 | every page of the address space and its tables is freed, other trees are unchanged |
| `UserCopy.UserMemory.Copyout` | kernel/vm.c:359-383 | walking the page table page by page, with user memory as one byte string: the bytes are spliced in up to the first page that is not writable, 0 if and only if there is none; no other byte, no other frame and no table changes |
| `UserCopy.UserMemory.Copyin` | kernel/vm.c:389-408 | likewise the bytes of user memory up to the first page that is not readable, 0 if and only if there is none |
| `UserCopy.UserMemory.Copyinstr` | kernel/vm.c:415-451 | likewise the string up to its first NUL; -1 exactly when the first `max` bytes have none before an unreadable page |
| `UserCopy.UserMemory.Find` | kernel/vm.c:109-126 | the walk gives the entry of exactly the pages of the user's own |
| `UserCopy.UserMemory.UpToNul` | kernel/vm.c:430-442 | the bytes of a piece up to and with its first NUL |
| `UserCopy.WrittenIsRead` | kernel/vm.c:359-408 | what copyout wrote, copyin reads |
| `UserCopy.SpaceApart` | kernel/vm.c:233-256 | the address spaces that uvmalloc and uvmcopy build never map one frame twice |
| `UserCopy.GrownIsUsable` | kernel/vm.c:233-256 | copyin may read all memory that uvmalloc adds, up to the last byte, and copyout may write it if and only if PTE_W was asked for |
| `UserCopy.AccessBits` | kernel/vm.c:119-124 | a page is readable or writable by its bits V, U and W alone |
| `Vm.Kernel.Uvmcopy` | kernel/vm.c:313-340 | success gives equal flags and equal contents in pages of its own; failure restores every translation and happens only with fewer than three free pages for each page copied; no page is lost |
| `Vm.Kernel.AddUserPage` | kernel/vm.c:242-253 | one page: filled and mapped, or given back with no translation changed |
| `Bitmap.BitOfSetBit` | kernel/fs.c:71-103 | marking or clearing a block changes its bit alone |
| `Bitmap.TestOfPut` | kernel/fs.c:74-102 | setting one bit of a byte by arithmetic changes that bit alone |
| `FsSpec.BlocksAreDistinct` | kernel/fs.c:383-421 | no block number occurs in two slots of the inodes and indirect blocks |
| `FsSpec.AllocatedOk` | kernel/fs.c:66-88 | an unmarked block is a data block that no inode owns; claiming it keeps the invariant |
| `FsSpec.FreedOk` | kernel/fs.c:92-105 | a block without owner is marked, and freeing it keeps the invariant |
| `FsSpec.AttachedOk` | kernel/fs.c:390-418 | putting a fresh block into an empty slot keeps the invariant |
| `FileSystem.FileSys.Balloc` | kernel/fs.c:66-88 | the first unmarked block, marked and zeroed, both logged, whatever blocks other processes have taken and not attached; none only if all are marked |
| `FileSystem.FileSys.Claim` | kernel/fs.c:75-80 | the block found is marked and zeroed, both blocks are logged |
| `FileSystem.FileSys.Bfree` | kernel/fs.c:92-105 | the block is unmarked; "freeing free block" is unreachable |
| `FileSystem.FileSys.Bmap` | kernel/fs.c:383-421 | the block of a file position, allocated with its indirect block if missing; no contents change; a present block changes and logs nothing; exactly what is logged, exactly when the inode itself changes, and 0 only on a full disk |
| `FileSystem.FileSys.FillSlot` | kernel/fs.c:389-415 | an empty slot gets a fresh zeroed block, or nothing changes and the disk is full; no other slot changes; exactly what is logged |
| `FileSystem.FileSys.MapEntry` | kernel/fs.c:407-417 | the part behind the indirect block: its entry, filled if it was empty and a block is to be had |
| `FileSystem.FileSys.MapIndirect` | kernel/fs.c:399-418 | the same with the indirect block allocated first; the inode changes if and only if that was missing and a block is to be had |
| `FsLog.AllocedMore` | kernel/fs.c:383-421 | what several calls of bmap log is what one would log that took all their blocks |
| `FsSpec.GrownContents` | kernel/fs.c:383-421 | filling holes changes the contents of no file |
| `FsSpec.FileLayout` | kernel/fs.c:377-421 | where each byte of a file is: 12 blocks named in the inode, 256 by the words of the 13th |
| `FileSystem.FileSys.Readi` | kernel/fs.c:472-496 | 0 bytes beyond the end or if the range wraps, else, for a file without holes in the range, exactly the contents from the offset to the end of the range or of the file, or -1 if the destination is too small. For any file, holes included: the slice of the contents, short only when the disk is full; state and log are unchanged if and only if every block that it comes to is present or no block is to be had, else a new block and its bitmap block are logged; the inode on disk stays the one in memory if and only if that has a place for every such block, or no block is to be had |
| `FileSystem.FileSys.ReadLoop` | kernel/fs.c:480-494 | the same for the loop over blocks |
| `FileSystem.FileSys.ReadAll` | user/cat.c:8-20 | reads of any size, repeated until one returns nothing, give the whole file |
| `FsRuns.HoleIsLogged` | kernel/fs.c:480-484 | on the image of 62 files, every outcome of reading the last root entry has logged something |
| `FsRuns.ReadOfHoleLogs` | kernel/file.c:120-124 | such a read, carried out from the image on with an empty log |
| `FsLog.InodeMapped` | kernel/fs.c:480-484 | one more bmap: the inode in memory is as at first if and only if it had a place for every block so far, or the disk was full |
| `FsLog.LostBlock` | kernel/fs.c:389-404 | a block number that only the inode in memory has: its block is marked, but with the inodes as they were it is in no block map |
| `FsRuns.LookupLeavesInodeBehind` | kernel/fs.c:652-684 | on the image of 62 files, looking up a name that is not there leaves the root's inode on disk behind and a marked block in no inode on disk |
| `FileSystem.FileSys.Writei` | kernel/fs.c:506-539 | -1 if and only if the offset lies beyond the end or the range beyond MAXFILE blocks; else the contents are the splice, no holes appear, other files are untouched, the inode on disk is the one in memory; short only when the disk is full or the next chunk is not readable; every changed block is logged if and only if no copy failed halfway with bytes that differ, in a block neither new nor logged before; exactly what is logged, and how much |
| `FileSystem.FileSys.WriteThenRead` | kernel/fs.c:472-539 | what writei accepted, readi at the same place gives back; all of it unless the disk is full |
| `FileSystem.FileSys.WriteLoop` | kernel/fs.c:516-528 | the same for the loop over chunks |
| `FileSystem.FileSys.Extend` | kernel/fs.c:530-536 | the size grows if the write went past it, and the inode is logged |
| `FsSpec.WrittenEnd` | kernel/fs.c:530-536 | after that the written bytes are the contents, without holes, and other files are untouched |
| `FsLog.WritingTorn` | kernel/fs.c:516-528 | a copy that fails halfway leaves a changed block unlogged if and only if Torn, a condition on the state before the write |
| `FsLog.WhenTorn` | kernel/fs.c:520-524 | in the block itself: it is logged or equal to what it was if and only if not Torn |
| `FsRuns.TornBlockIsNotLogged` | kernel/fs.c:520-526 | a write to the one file of an image after which the file's byte has changed and its block is not logged |
| `FsSpec.WrittenChunk` | kernel/fs.c:516-528 | copying one chunk into its block changes exactly those bytes of the file |
| `FsSpec.AfterWriteTwice` | kernel/file.c:157-174 | two writes in a row are one |
| `FsSpec.FileWrittenMore` | kernel/file.c:157-174 | one more operation continues the write |
| `FsLog.SpaceUsed` | kernel/fs.c:506-539 | what a write logs has at most WriteSpace distinct blocks; with one bitmap block, at most three besides those written |
| `FsLog.SpaceExact` | kernel/fs.c:506-539 | with one bitmap block, a complete write logs exactly its data blocks, the inode, the bitmap if a block is new, and the indirect block if it is new or names a new one |
| `FsLog.UnitFits` | kernel/file.c:155-160 | a chunk of filewrite fits an operation at every offset of a file without holes, and of any file if there is one bitmap block |
| `FsLog.OneMapUnit` | kernel/file.c:155-160 | with one bitmap block a unit fits an operation at every offset if and only if it has at most 6145 bytes |
| `FsRuns.TooLargeUnit` | kernel/fs.c:506-539 | for every larger size a write to a file of mkfs's image that logs more than ten distinct blocks, eleven for 6146 bytes |
| `FileSystem.FileSys.Filewrite` | kernel/file.c:135-181 | the whole write over all its operations: each logs at most MAXOPBLOCKS distinct blocks (one more for a file with holes on a disk with several bitmap blocks), together they log every changed block (but for a copy that failed halfway), their number, the result and the new offset |
| `FileSystem.FileSys.WriteUnit` | kernel/file.c:158-168 | one operation, with the same limit |
| `FileSystem.FileSys.Itrunc` | kernel/fs.c:426-453 | all blocks of the file are freed exactly once, it becomes empty, the inode on disk is the one in memory again, other files are untouched, every changed block is logged |
| `FileSystem.FileSys.FreeDirect` | kernel/fs.c:432-437 | the direct blocks are freed and their slots cleared, only bitmap blocks are logged |
| `FileSystem.FileSys.FreeIndirect` | kernel/fs.c:439-449 | the indirect block and its entries are freed, each once |
| `FsSpec.ClearDirect` | kernel/fs.c:432-437 | a direct slot cut off leaves exactly its block to be freed |
| `FsSpec.ClearIndirect` | kernel/fs.c:439-449 | cutting off the indirect root leaves exactly its blocks to be freed |
| `FsSpec.EntryFreed` | kernel/fs.c:442-445 | one entry less to be freed |
| `DirSpec.Strncmp` | kernel/string.c:61-68 | equality of the strings in two buffers up to the limit, with or without terminators |
| `DirSpec.KeyOfName` | kernel/string.c:71-81 | a stored name gives back the string |
| `DirSpec.FindIs` | kernel/fs.c:560-572 | a lookup finds nothing if and only if no used entry has the name |
| `DirSpec.LinkAdds` | kernel/fs.c:580-606 | a new entry adds exactly its binding and keeps names unique |
| `DirSpec.Skipelem` | kernel/fs.c:623-645 | the next path element as the 14-byte key that lookup compares, and the rest of the path; false exactly at the end |
| `DirSpec.ElementsOfPath` | kernel/fs.c:623-645 | the elements of a path are what lies between its slashes, however many before, between and behind them |
| `DirSpec.EveryPath` | kernel/fs.c:608-645 | every path is its elements with runs of slashes around them, at least one between any two |
| `DirSpec.SameEntry` | kernel/fs.c:623-645 | two path elements name the same entry in every directory if and only if their first 14 bytes agree |
| `FileSystem.FileSys.Dirlookup` | kernel/fs.c:552-575 | for any directory, holes included: the inode bound to a name and the place of an entry that has it, or none; the panic only for a partial entry, or a hole on a full disk; no contents change; exactly when anything is allocated, and when the inode on disk is left behind |
| `FileSystem.FileSys.FindVacant` | kernel/fs.c:593-598 | the first unused entry or the end of the directory; allocation and the inode on disk likewise |
| `FileSystem.FileSys.ReadEntry` | kernel/fs.c:560-562 | one entry of the directory as it was, or the panic; the inode on disk is left behind if and only if the inode has no place for the entry's block and a block is to be had |
| `FileSystem.FileSys.Dirlink` | kernel/fs.c:580-606 | success adds exactly one binding, keeps names unique, lookup finds it, and the directory grows if and only if no entry is unused; failure only for a taken name, a full disk or a full directory, and changes no contents; no panic in a directory without holes |
| `Mkfs.BitsBlockBits` | mkfs/mkfs.c:235-248 | the bitmap block marks exactly the blocks in use |
| `Mkfs.NextBlock` | mkfs/mkfs.c:266-283 | taking the next block for an empty slot keeps the image in order |
| `Mkfs.Image.Iappend` | mkfs/mkfs.c:253-294 | the file gets the bytes at its end, with exactly the blocks needed; other files are untouched |
| `Mkfs.Image.constructor` | mkfs/mkfs.c:90-111 | an empty image is in order |
| `Mkfs.Image.MapBlock` | mkfs/mkfs.c:265-283 | the block of the next position, direct or indirect, with exactly the new blocks needed |
| `Mkfs.Image.MapIndirect` | mkfs/mkfs.c:272-283 | the same behind the indirect block |
| `Mkfs.Image.CopyIn` | mkfs/mkfs.c:157-158 | a file read in pieces of a block ends up whole |
| `Mkfs.Image.Ialloc` | mkfs/mkfs.c:221-232 | the next inode, empty, with one link |
| `Mkfs.Image.Balloc` | mkfs/mkfs.c:235-248 | writes the bitmap block for the blocks used |
| `Mkfs.Image.AddFile` | mkfs/mkfs.c:130-160 | one more file, of type T_FILE with one link, with its contents and its entry in the root directory |
| `Mkfs.Image.Finish` | mkfs/mkfs.c:163-170 | the file-system invariant holds of the image; the root has zeros behind its entries, and no hole if and only if its size was not a multiple of the block size |
| `Mkfs.MakeImage` | mkfs/mkfs.c:69-173 | the invariant; a root of type T_DIR and files of type T_FILE with one link each; every file's contents, a root that for good names is a directory binding exactly the files, its size, exactly when it has a hole, and the blocks in use |
| `Mkfs.MakeFiles` | mkfs/mkfs.c:117-160 | the same before the last steps: root and files, and the blocks they take |
| `Mkfs.RootIsDirectory` | mkfs/mkfs.c:163-168 | the zeros that round the root up leave it a directory with the same bindings |
| `Mkfs.MakeRoot` | mkfs/mkfs.c:117-128 | a root directory with `.` and `..` |
| `Mkfs.ListingBinds` | mkfs/mkfs.c:117-155 | for names that differ in their first 14 bytes, the root listing is a directory that binds exactly `.`, `..` and each file to its inode |
| `Mkfs.EveryFileIsFound` | mkfs/mkfs.c:117-168 | in the finished root, rounded size and all, the kernel's lookup of each file's name gives its inode |
| `Mkfs.RoundedRoot` | mkfs/mkfs.c:163-168 | rounding the size keeps the invariant and all other files, and makes a hole exactly for a multiple of the block size |
| `Mkfs.HoleIsReachable` | mkfs/mkfs.c:163-168 | 62 empty files with different names fit in the image and fill the directory block exactly |
| `InodeTable.Find` | kernel/fs.c:253-266 | the live entry of an inode, else the first unused one |
| `InodeTable.StepKeeps` | kernel/fs.c:199-362 | every step keeps: one live entry per inode, reference counts, and an unlocked valid copy that agrees with the disk in type and links and is ahead of it in size and blocks exactly when iupdate is owed |
| `InodeTable.EveryRun` | kernel/fs.c:199-362 | so does every interleaving |
| `InodeTable.InitInv` | kernel/fs.c:181-190 | the invariant holds of an empty table |
| `InodeTable.PutFreeNeverBlocks` | kernel/fs.c:337-348 | the acquiresleep in iput gets the lock at once |
| `InodeTable.LockIsFresh` | kernel/fs.c:293-317 | ilock never finds a free inode; the copy is the inode on disk if and only if it was read in anew or no iupdate is owed |
| `InodeTable.UnlockedCopy` | kernel/fs.c:221-241 | in every reachable state, the unlocked valid copy is the inode on disk if and only if no iupdate is owed; type and links always agree |
| `InodeTable.FillIsForgotten` | kernel/fs.c:652-684 | a lookup that fills a hole leaves the copy ahead of the disk, and when the last reference goes the next ilock has the inode without the block |
| `InodeTable.RefCounts` | kernel/fs.c:247-288 | ref is the number of references |
| `InodeTable.FreeMeansUnused` | kernel/fs.c:199-219 | an inode that is free on disk is referenced at most by the iput that freed it, in its last steps |
| `InodeTable.IputFreesExactly` | kernel/fs.c:339-361 | iput frees an inode if and only if its reference is the only one, the inode has been read in, and it has no links on disk; else it just gives up the reference |
| `InodeTable.FreedIsBlank` | kernel/fs.c:350-352 | what iput leaves has type 0, no links, size 0 and no block numbers, on disk and in memory |
| `InodeTable.FreeInodesAreBlank` | kernel/fs.c:199-362 | over every run, inodes that are free on disk have no links, no size and no block numbers |
| `InodeTable.MarkDropsNothing` | kernel/fs.c:209-212 | so ialloc drops no block: the type is all that it changes |
| `InodeTable.AllocatedNow` | kernel/fs.c:211-214 | the caller of ialloc has the only reference, but for the iput that freed the inode |
| `InodeTable.AllocatedStill` | kernel/fs.c:199-362 | whatever others do before it takes the lock |
| `InodeTable.AllocatedIsEmpty` | kernel/fs.c:293-317 | and then it finds the inode on disk, empty and without links |
| `InodeTable.StoredIsReadBack` | kernel/fs.c:221-317 | an inode read in after iupdate or itrunc and any run without its lock is what was stored, or empty, with type and links kept |
| `InodeTable.GetExactly` | kernel/fs.c:247-278 | iget finds a place, and does not panic, if and only if the inode is in the table or some entry is unused |
| `InodeTable.DupGives` | kernel/fs.c:282-288 | idup always succeeds and gives one more reference to the same inode |
| `InodeTable.IputGetsThrough` | kernel/fs.c:343-361 | an iput that frees never waits, whatever others do between its steps |
| `InodeTable.LockInTheEnd` | kernel/fs.c:293-326 | ilock waits if and only if somebody else holds the lock, and that one can go on and release it |
| `InodeTable.OrphanedExactly` | kernel/fs.c:330-362 | an inode in use on disk loses its last link and reference without being freed if and only if the reference goes at the end of an iput that freed what was there before, or by an iput of an inode never read in |
| `InodeTable.ReallocatedIsOrphaned` | kernel/fs.c:330-362 | a run in which that happens to an inode reallocated between the two halves of iput |
| `ExitWait.StepKeeps` | kernel/proc.c:110-609 | every step of fork (failing ones too), exit, wait, sleep, wakeup, kill and the scheduler keeps the invariant |
| `ExitWait.EveryRun` | kernel/proc.c:110-609 | so does every interleaving, with all pids distinct |
| `ExitWait.NoLostWakeup` | kernel/proc.c:391-435 | whenever wait_lock is free nobody sleeps on their own channel while a child is a zombie |
| `ExitWait.ParentsLive` | kernel/proc.c:331-341 | no zombie and no free slot is anyone's parent |
| `ExitWait.ReapedIsDone` | kernel/proc.c:403-421 | wait frees a child only after the child has left its stack for good |
| `ExitWait.NoChildrenMeansNone` | kernel/proc.c:426-430 | wait gives up for lack of children only if there are none |
| `ExitWait.WaitReturns` | kernel/proc.c:399-430 | wait returns only with the pid of a zombie child of its own, which is gone then, or with no child, or killed, or because the status could not be copied out |
| `ExitWait.WaitSleeps` | kernel/proc.c:426-433 | wait goes to sleep only with a child in the table and not killed |
| `ExitWait.KidsEveryRun` | kernel/proc.c:399-433 | over every run a child that the scan has seen is still there |
| `ExitWait.ParentChanges` | kernel/proc.c:316-341 | a process keeps the parent that forked it until that exits, which makes it init's, or until its parent reaps it; all under wait_lock |
| `ExitWait.KillWakes` | kernel/proc.c:591-609 | kill marks its target and ends its sleep, and touches nobody else |
| `ExitWait.ForkStarts` | kernel/proc.c:316-326 | fork ends with a new child of the caller that can run |
| `ExitWait.WokenBy` | kernel/proc.c:331-379 | a process asleep in wait is woken by a kill, by a child of its own that exits, or, if it is init, by a process whose children it gets; by nothing else |
| `ExitWait.SleepsOn` | kernel/proc.c:541-586 | a process asleep on something else is woken by its own wakeup or by kill only |
| `ExitWait.ComesBack` | kernel/proc.c:505-569 | a process that sleeps on something else, or yields, comes back to where it was |
| `ExitWait.NeverStuck` | kernel/proc.c:280-435 | no deadlock: a process in the middle of fork, exit or wait can go on, or the holder of wait_lock can, or one that holds its own p->lock |
| `ExitWait.UserMay` | kernel/proc.c:280-391 | a running process can always wait, exit unless it is init, and fork if a slot is free; kill reaches every process whose lock is free |
| `ExitWait.PidsKept` | kernel/proc.c:403-421 | every step keeps the pids in use and all pids returned by wait distinct, so none is returned twice |
| `ExitWait.BootOk` | kernel/proc.c:233-255 | the invariant holds after userinit |
| `ExitWait.MarkOfFreeSlot` | kernel/proc.c:110-172 | a free slot is marked as killed by a kill of it only, unmarked by a failing fork only, and a fork that succeeds there keeps the mark |
| `ExitWait.BornKilled` | kernel/proc.c:591-609 | a run in which kill(0) marks a free slot and the process that gets it is killed from the start |
| `Virtio.RingPut` | kernel/virtio_disk.c:271-278 | publishing across the 16-bit wrap overwrites no unread entry |
| `Virtio.RingGet` | kernel/virtio_disk.c:312-324 | the next unread entry, and that equal indices mean none |
| `Virtio.AtMostTwo` | kernel/virtio_disk.c:202-213 | at most two requests are in flight |
| `Virtio.RingsAreShort` | kernel/virtio_disk.c:271-325 | neither ring holds more than two entries while descriptors are partitioned, so none is ever overwritten |
| `Virtio.LaunchOk` | kernel/virtio_disk.c:226-278 | submitting keeps the partition, the chains and both rings |
| `Virtio.TakeOk` | kernel/virtio_disk.c:271-278 | so does the device taking a chain |
| `Virtio.CompleteOk` | kernel/virtio_disk.c:311-314 | so does the device reporting one, in any order |
| `Virtio.IntrOk` | kernel/virtio_disk.c:312-324 | so does the interrupt handler |
| `Virtio.LandOk` | kernel/virtio_disk.c:288-289 | so does freeing the chain |
| `Virtio.Disk.AllocDesc` | kernel/virtio_disk.c:157-166 | the first free descriptor, or none |
| `Virtio.Disk.Alloc3` | kernel/virtio_disk.c:202-213 | three distinct free descriptors; or the free ones are as before and fewer than three |
| `Virtio.Disk.constructor` | kernel/virtio_disk.c:144-146 | all descriptors free, nothing in flight |
| `Virtio.Disk.GiveBack` | kernel/virtio_disk.c:206-210 | the descriptors taken so far become free again |
| `Virtio.Disk.Submit` | kernel/virtio_disk.c:216-283 | a chain that tells the device exactly the request; descriptors stay partitioned |
| `Virtio.Disk.DeviceTake` | kernel/virtio_disk.c:271-278 | a device sees the chains in the order published |
| `Virtio.Disk.DeviceComplete` | kernel/virtio_disk.c:226-265 | following the descriptors, in sectors of 512 bytes and writing only where a descriptor allows it, the device transfers exactly the requested block to or from the requested buffer |
| `Virtio.Disk.IntrOne` | kernel/virtio_disk.c:312-324 | one completion frees its own buffer and no other; the status panic is unreachable |
| `Virtio.Disk.Intr` | kernel/virtio_disk.c:295-327 | all reported requests, and only those, become complete |
| `Virtio.Disk.FreeChain` | kernel/virtio_disk.c:186-197 | exactly the three descriptors of a chain are freed, none of them free before |
| `Virtio.Disk.Finish` | kernel/virtio_disk.c:284-291 | the chain is freed if and only if the request is complete |
| `Umalloc.RingInsert` | user/umalloc.c:25-44 | insertion keeps one ring in address order |
| `Umalloc.RingRemove` | user/umalloc.c:74-76 | removal keeps one ring in address order |
| `Umalloc.FreedOk` | user/umalloc.c:31-43 | freeing with either, both or no merges keeps the heap in order |
| `Umalloc.Heap.FindPlace` | user/umalloc.c:31-33 | the search terminates at the free block just below |
| `Umalloc.Heap.Free` | user/umalloc.c:25-44 | the block becomes free, all other live blocks keep their place and size, no unit is lost |
| `Umalloc.Heap.Morecore` | user/umalloc.c:47-61 | the new units become free; nothing changes if sbrk refuses |
| `Umalloc.Obtained` | user/umalloc.c:57-59 | memory from sbrk enters the heap as one more live block, which free then takes |
| `Umalloc.Heap.Take` | user/umalloc.c:74-83 | the whole of a block or its tail becomes live |
| `Umalloc.Heap.Malloc` | user/umalloc.c:64-90 | NULL if and only if no free block has room for the bytes behind its header and sbrk refuses; else a new live block with that room and less than a unit more, while the heap grows if and only if nothing fitted; other live blocks keep place and size; both loops terminate |
| `Umalloc.BlocksAreDisjoint` | user/umalloc.c:25-90 | blocks, free or live, do not overlap |
| `Umalloc.FullyCoalesced` | user/umalloc.c:34-42 | neighbouring free units are always in the same block |
| `Umalloc.OneRing` | user/umalloc.c:25-90 | the free list is one ring |
| `Umalloc.SbrkArgExact` | user/umalloc.c:52-54 | morecore asks for what it means if and only if it wants fewer than 2^27 units |
| `Umalloc.SbrkForNothing` | user/umalloc.c:52-54 | a request of almost 2^32 bytes asks sbrk for nothing |
| `ShellParser.RoundTrip` | user/sh.c:329-447 | every tree with legal words and at most 9 arguments, printed and parsed, comes back |
| `ShellParser.RoundExec` | user/sh.c:401-447 | the same for one command, words or parentheses with redirections |
| `ShellParser.RoundPipe` | user/sh.c:363-373 | the same for a pipe line |
| `ShellParser.RoundBack` | user/sh.c:351-355 | the same with ampersands behind it |
| `ShellParser.RoundLine` | user/sh.c:346-360 | the same for a list |
| `ShellParser.RedirsOfShown` | user/sh.c:376-398 | printed redirections parse back |
| `ShellParser.ArgsOfShown` | user/sh.c:431-443 | printed words, with redirections behind them, parse back |
| `ShellTokens.Gettoken` | user/sh.c:267-309 | the loops find exactly the token that the parser's function says |
| `ShellTokens.Blanks` | user/sh.c:273-274 | the loop over blanks |
| `ShellTokens.WordEnd` | user/sh.c:298-299 | the loop over a word |
| `ShellTokens.PeekAt` | user/sh.c:312-321 | the same for peek |
| `ShellTokens.ParsedWords` | user/sh.c:329-447 | for every input that parses, the words are pieces of it that do not touch, and the tree is legal |
| `ShellTokens.ParseShowParse` | user/sh.c:329-447 | printing and parsing again what was parsed gives the same tree |
| `ShellTokens.Nulterminate` | user/sh.c:451-494 | a NUL behind each word and nowhere else |
| `ShellTokens.WordsAreStrings` | user/sh.c:451-494 | after that every argument and file name is, as a C string, exactly its word |
| `ShellLex.BlanksDoNotCount` | user/sh.c:263-321 | a line parses to the same tree, or gives the same error, whatever runs of spaces, tabs, returns, newlines and vertical tabs stand before, between and behind its tokens |
| `ShellLex.LexOfSpelling` | user/sh.c:267-309 | gettoken finds exactly the words, the seven special characters and `>>` that a line was written with |
| `ShellLex.ParsedAlike` | user/sh.c:329-447 | lines with the same tokens parse alike |
| `ShellLex.Operators` | user/sh.c:346-447 | what `<`, `>`, `>>`, `|`, `&`, `;` and parentheses stand for, and how they bind |
| `Grep.Matchhere` | user/grep.c:85-96 | computes the matcher's recursion |
| `Grep.Matchstar` | user/grep.c:99-106 | the same for its loop |
| `Grep.MatchLine` | user/grep.c:73-82 | the same for the search |
| `Grep.MatchHereMeans` | user/grep.c:85-106 | matchhere holds if and only if some beginning of the text is in the pattern's language |
| `Grep.StarMeans` | user/grep.c:99-106 | matchstar holds if and only if some number of matching characters leaves a match of the rest |
| `Grep.MatchMeans` | user/grep.c:73-82 | match holds if and only if some piece of the text is, at its beginning for a pattern with `^` |
| `Grep.Metacharacters` | user/grep.c:73-106 | a word is found wherever it is, with `^` at the beginning only, with `$` at the end only; a dot is any character, a star any number of what is before it |
| `Grep.Lines` | user/grep.c:22-29 | the complete lines in the buffer are printed if they match, and the rest is kept |
| `Grep.FindNewline` | user/grep.c:22-22 | the first newline in the buffer, unless a NUL comes before it |
| `Grep.OneLine` | user/grep.c:22-28 | a line is printed with its newline if and only if it matches |
| `Grep.Round` | user/grep.c:18-34 | one read: what is printed plus what is left to do is what was to do before |
| `Grep.GrepFile` | user/grep.c:12-35 | for any file and however the reads are cut, the output is the matching lines before the first one that does not fit the buffer or holds a NUL |
| `Grep.PrintsAllExactlyWhen` | user/grep.c:12-35 | that is all the matching complete lines if and only if none of them lies at or after a line that does not fit or holds a NUL |
| `Grep.PrintsAllOfShortLines` | user/grep.c:18-18 | so it is when every complete line, with its newline, has at most 1023 characters and no NUL |
| `Grep.LongLineEndsOutput` | user/grep.c:18-18 | behind a line of 1023 characters a matching line is lost |
| `Grep.NothingToPrint` | user/grep.c:22-29 | there are matching lines to print if and only if some complete line matches |
| `Rings.Put` | kernel/pipe.c:96-96 | storing across the 32-bit wrap keeps the queue |
| `Rings.Get` | kernel/pipe.c:122-122 | taking the oldest byte; when the ring is empty and when full |
| `Rings.Unput` | kernel/console.c:154-154 | taking back the newest byte across the 32-bit wrap |
| `Rings.PipeRing.Write` | kernel/pipe.c:77-103 | bytes enter the pipe in order up to the kill, the unreadable byte or a full pipe; it sleeps if and only if the pipe is full with a reader left; -1 if and only if bytes remain and the reader is gone or the writer killed, even after bytes went in |
| `Rings.PipeRing.Read` | kernel/pipe.c:106-130 | bytes leave in the order they came; -1 if and only if the pipe is empty with a writer left and the reader killed; it sleeps if and only if empty with a writer left and not killed; 0 for a nonempty buffer means end of file; at most one byte is lost, when the destination ends |
| `Rings.PipeRing.constructor` | kernel/pipe.c:23-56 | an empty pipe open at both ends |
| `Rings.PipeRing.PutByte` | kernel/pipe.c:96-96 | one byte enters the queue |
| `Rings.PipeRing.GetByte` | kernel/pipe.c:122-122 | one byte leaves it |
| `Rings.Console.Consoleintr` | kernel/console.c:136-179 | the ring does exactly what an abstract line editor does with each character, and a full ring holds only text that can be read |
| `Rings.Console.KillLine` | kernel/console.c:144-150 | control-U empties the line being typed and stops at text that is ready |
| `Rings.Console.Erase` | kernel/console.c:153-156 | the last character of the line goes |
| `Rings.Console.Store` | kernel/console.c:166-173 | a character joins the line, which becomes ready at its end or when the ring is full |
| `Rings.Console.Consoleread` | kernel/console.c:80-127 | delivers exactly what is ready up to a line end or the end of the buffer; a control-D ends the read and stays for the next one if bytes were delivered |
| `Rings.TakeMeans` | kernel/console.c:88-123 | a read takes a beginning of the input that goes past no line end and no control-D; at most one byte is neither read nor left, a control-D at the start or a byte that found no room; when it is done |
| `Rings.TypedLine` | kernel/console.c:80-173 | a line typed and ended with return or newline is read as the line with a newline; ended with control-D, as the line alone, and the next read gives nothing; until then it cannot be read |
| `Rings.Console.Next` | kernel/console.c:99-99 | the next ready character |
| `Rings.EraseUndoes` | kernel/console.c:151-173 | backspace takes back a typed character if and only if that did not fill the buffer |
| `Rings.KillUndoes` | kernel/console.c:144-156 | control-U takes back the whole line typed so far, backspace and delete one character |
| `Rings.NotInput` | kernel/console.c:140-159 | control-P and NUL are not input, and when the buffer is full only the editing keys have an effect |

## Left out

- Boot, traps, context switch, device registers, virtio feature negotiation, weak memory order: locks and memory are sequentially consistent steps.
- UserCopy.UserMemory.Copyout: the bytes of user frames are kept beside `Vm`'s pages of 512 words. The demand that no frame is mapped twice is what `SpaceApart` proves of the kernel's address spaces.
- FileSystem.FileSys.Readi: the number of bytes that can be copied out is a parameter, as it is for writei and the pipe, instead of a call of copyout. Files larger than MAXFILE blocks, which only mkfs's rounding could make, are outside of it.
- kvmmake, uvmfirst, uvmclear: they would only add easy members.
- The byte layout of struct dinode and of the superblock: inode blocks are sequences of inodes, and the superblock's numbers are the `Layout` value.
- Disks other than ROOTDEV: the driver ignores the device number, so the cache is modelled for the one disk that exists.
- Bio.Bcache.Brelse: demands that an unpinned buffer equals the disk, which is the log_write discipline of its callers.
- FileSystem.FileSys.Writei: the blocks are seen through cache and log with their latest contents; that the cache shows them is proved in `Bio`.
- FileSystem.FileSys.Filewrite: other processes do not write the file between its operations. That an operation on a file with holes needs the eleventh block, on a disk with several bitmap blocks, is not shown; the only file with a hole, mkfs's root, is a directory and cannot be opened for writing.
- Logging.Log.Commit: other processes that read take their steps before commit's breads; they do not write, which no operation can do while the log is committing.
- Mkfs.Image.AddFile: takes the name that is stored; stripping `user/` and a leading underscore is left out.
- Mkfs.Image.Iappend: updates the inode in place where the source writes a local copy back at the end, and demands that the files fit; the source does not check the size of the image.
- InodeTable.StepKeeps: a lookup in a directory is taken to find a linked inode; global link counts, and `..` of a removed directory, are not modelled. Major and minor numbers, set once with the first link, are left out, and a changed link count is taken to be written back before iunlock, as every caller does. ialloc takes any free inode, where the source takes the first.
- ExitWait.EveryRun: pids do not wrap; closing of files in exit and memory copying in fork are not part of the protocol.
- Virtio.Disk.DeviceComplete: the device reports success, and takes each chain once.
- Umalloc.Heap.Malloc: demands fewer than 2^27 units, which `SbrkArgExact` shows to be where the code does what it means; sbrk is an oracle that returns memory above all that it returned before.
- Rings.PipeRing.Write: wakeups and pipeclose are not modelled.
- Grep.GrepFile: reads do not fail.
- sys_link, sys_unlink, create, namex's walk over directories, exec, the scheduler's choice of process, and all system-call plumbing.
