# xv6, proved

A Dafny model of the parts of this annotated xv6, and of the line editor that comes with it, whose correctness is
hard to see from the code: the crash-safe storage stack, the user-level allocator, pipes and open files, the builder
of the file system image, the pattern matcher of grep and the editor's list of lines. `dafny verify dfyconfig.toml`
covers the whole project.

## The parts

**Storage stack** (`log.c` over `bio.c` over `memide.c`). `Storage.dfy` is the stack as one step system: any process
moves at any time, each move being one critical section, one disk transfer or one copy, and the machine may crash
between any two moves, also during recovery. `GroupCommit.dfy` holds the log record and its reservation,
`BufferCache.dfy` the cache shared by many processes and the simple block store it refines, `LogDisk.dfy` what
headers, commits and recoveries mean on a disk, and `CrashLog.dfy` the invariant that ties them. The main results
speak of every run: recovery from the disk of any moment gives exactly what was committed, this changes at one disk
write and to whole operations, an operation survives a crash exactly if it logged nothing or a commit came first,
readers see the latest contents, and recovery may be interrupted any number of times. `CacheRoom.dfy` counts buffers;
`CacheCalls.dfy` and `StackCalls.dfy` put runs together from whole calls. `Completion.dfy` uses them to show that commits and
recoveries come to an end, `Overrun.dfy` to build the runs in which the log outgrows its area and to show exactly when
that does harm.
`Bcache.dfy` and `LogMethods.dfy` are the same code as it runs: the ring of buffers with its links, and the log over
it, where every disk write is recorded so that a contract can speak of the disk a crash would leave after each.

**Allocator** (`umalloc.c`). `FreeList.dfy` is the free list as a value, `Allocator.dfy` the circular list in memory
with its single wrap, its splitting and its merging on two sides. Every unit obtained from sbrk is at all times free
or live and not both.

**Pipes and open files** (`pipe.c`, `file.c`, `sysfile.c`). `PipeRing.dfy` is the ring under wrapping 32-bit counters,
`PipeMachine.dfy` any number of readers and writers on it with sleep, wakeup and kill, `PipeMethods.dfy` the loops.
`FileTable.dfy` is the file table shared by many processes, in which a slot may be reused before the pipe behind it is
closed, and in which exit's descriptors name their files a moment longer than they refer to them; `PipeCalls.dfy` ties the two machines together, and `FileMethods.dfy` are the calls of one process.

**Image builder** (`mkfs.c`). `ImageCodec.dfy` and `Image.dfy` are the image down to its bytes; `Mkfs.dfy` shows that
appending through direct and indirect blocks is appending to a sequence of bytes, and builds whole images.

**Matcher** (`grep.c`). `Grep.dfy` gives patterns a meaning as languages and shows that the backtracking search decides
it, for every pattern and text.

**Editor** (`editor.c`). `LineEdits.dfy` is what the commands do to the sequence of lines, `LineList.dfy` the doubly
linked nodes that hold them, and `Editor.dfy` the commands with their cursor, also for numbers that name no line.

`Blocks.dfy` holds the few definitions that several of these share.

## Where the code falls short

Each of these is stated by a member below, with the exact condition.

- mkfs gives the log LOGSIZE blocks in all, header included. One block is missing: an operation within its budget can
  reach panic("too big a transaction"), and since log_write reads its guard before it takes the lock, the list of
  logged blocks can even grow past the log area. Apart from caches too small to hold so many blocks, with NBUF below
  log.size - 1 for the panic and below log.size for the growth, both are impossible exactly when LOGSIZE <= log.size - 1.
- What saves the disk is the cache. As shipped NBUF is log.size, so a list that has outgrown the area has taken every
  buffer, and the commit ends in panic("bget: no buffers") before its first disk write: the shipped kernel is crash safe
  in every run. With one buffer more the commit would go on and write over the home block behind the log. The stack is
  crash safe exactly when LOGSIZE <= log.size - 1 or NBUF <= log.size.
- An end_op that is not the last one returns before its operation is durable. A crash before the next commit takes it.
- In a log area of the right size an operation that has used its whole budget can be refused by that guard even for a
  block of its own that is already logged. Operations with budget left are spared, and these are the only ones, unless
  the cache has fewer than LOGSIZE buffers.
- A commit needs one buffer more than it has blocks. With a log area one block larger, a full log would still lead to
  panic("bget: no buffers"), since NBUF is LOGSIZE; in an area of that size it takes NBUF > LOGSIZE.
- A writer that is killed while it waits to store more than the pipe can take leaves without waking the readers. One
  that is asleep then sleeps on a pipe with bytes in it. No other step does this.
- mkfs rounds the size of the root directory up. If the last block is full, the new size claims a block that does not
  exist. This happens exactly when two more than the number of files is a multiple of 32, so first with 30 files.
- ialloc does not look at its number. The inode blocks hold 208 inodes, eight more than the super block admits to. The
  207th file gets number 208, in the sector of the bitmap, where balloc writes over it; from number 216 on inodes land in
  data blocks.
- cut leaves curNode and currentLine as they are. They still belong together exactly when the cursor's line lies
  outside the reordered stretch or the block stays where it is. cut does not mark the file as changed either.
- A listing without line numbers moves the cursor's node to the end and leaves its number behind. A page back that ends
  just before the first line asks for line 0, and leaves the number 0 with the node of the old cursor. From such a
  cursor a number may lead to another line, to the head or to the tail: ins may then put a line behind the tail, where it
  is counted but no longer part of the list, and mod may add a line at the end.
- Asked for line 0, findNode returns the cursor's line, and runs off the list if the cursor is at the head. del of an
  emptied file asks for it, and so do del and cut when 0 is typed. cut then may tear nodes out of the list while
  fileLineNum still counts them, and del may delete up to the end of the file and report an error. For line 0 mod follows
  a pointer it has not set.
- A number with no line makes mod and cut follow a null pointer, and del if it is the second number.

## Conventions

- A pair (dev, blockno) is an option: no block, or a block of disk 1. Disk blocks of the storage stack are 128 words,
  as struct logheader sees them; those of the image builder are 512 bytes.
- Each critical section is one step. A process that begin_op puts to sleep stays asleep until a wakeup.
- A process changes a buffer only inside an operation, logs it before it releases it, and has released its buffers when
  the operation ends. An operation logs blocks outside the log area, at most MAXOPBLOCKS different ones, any of them more
  than once. These are the rules the comments of log.c and bio.c give to callers.
- A disk header whose count or entries are out of range is not a disk this kernel wrote, and is not considered.
- The heap is addressed in units of a header. What sbrk returns is a parameter: nothing, or fresh memory above all
  memory it gave before. Sizes do not overflow.
- kalloc's success is a parameter of pipealloc. A process may be killed at any time.
- Strings have no NUL inside. malloc in the editor succeeds. Where a command would follow a null or unset pointer its
  outcome is `Faults`, and nothing is said about the state after that.
- The host file mkfs writes has FSSIZE sectors, so reading a sector past them fails and mkfs exits.

## Model

| member | source | states |
|---|---|---|
| `GroupCommit.StepInv` | XV6-code/log.c:126-233 | every step of begin_op, log_write and end_op, by any process, keeps the log record's invariant: outstanding counts the operations in progress, the logged blocks and the unused budgets fit LOGSIZE together, commits exclude operations |
| `GroupCommit.GroupCommitSafety` | XV6-code/log.c:145-174 | in every interleaving a commit has no operation outstanding, panic("log.committing") is unreachable, and all log_writes of one operation are in one transaction |
| `GroupCommit.BeginFits` | XV6-code/log.c:126-141 | begin_op's test leaves room for one more full budget of MAXOPBLOCKS |
| `GroupCommit.Reservation` | XV6-code/log.c:213-222 | an operation with budget left passes log_write's guards at whatever moment it reads them, although it reads them without the lock |
| `GroupCommit.AppendHasRoom` | XV6-code/log.c:223-232 | a log_write that passed the guard still finds room once it has the lock |
| `GroupCommit.ReservationExact` | XV6-code/log.c:218-219 | for the log record alone, without the cache: that guard never stops an operation with budget left, in runs that log blocks outside the log area, if and only if LOGSIZE <= log.size - 1 |
| `GroupCommit.RepositoryLogIsTooSmall` | XV6-code/mkfs.c:25 | with the repository's constants, where mkfs makes the whole log LOGSIZE blocks, it does not hold |
| `GroupCommit.OverflowExact` | XV6-code/log.c:218-230 | for the log record alone: the list of logged blocks never outgrows the log area if and only if LOGSIZE <= log.size - 1, because the guard is read before the lock is taken |
| `GroupCommit.OverflowHappens` | XV6-code/log.c:218-230 | the run in which it does, on blocks outside the log area: one operation reads the guard, the others take the last block, and the first then appends |
| `GroupCommit.RepositoryLogCanOverflow` | XV6-code/mkfs.c:25 | with the repository's constants such a run logs as many blocks as the whole area, header included |
| `GroupCommit.AbsorbedWriteCanPanic` | XV6-code/log.c:218-226 | a run in which an operation that has used its budget is refused a block of its own that is already logged and would need no room |
| `GroupCommit.GuardExact` | XV6-code/log.c:213-220 | for the log record alone: no reachable state stops an operation that has logged m blocks if and only if m is more than the guard lets through, or leaves more unused budget than fits in LOGSIZE behind a log at the guard; in a log area with room for LOGSIZE blocks, if and only if m is less than MAXOPBLOCKS |
| `GroupCommit.SleepersHaveReason` | XV6-code/log.c:126-174 | in every interleaving a process asleep in begin_op means that a commit runs or that one more budget would not fit: no wakeup of log.c is lost |
| `SharedCache.StepInv` | XV6-code/bio.c:81-192 | every step of bget, bread, bwrite and brelse, by any process, keeps counts, locks, contents and ring consistent |
| `SharedCache.StepRefines` | XV6-code/bio.c:81-192 | each step of the shared cache is one step, or none, of a block store with a lock per block |
| `SharedCache.BreadReturnsLatest` | XV6-code/bio.c:135-148 | bread returns the latest contents of the block, and to one process at a time |
| `SharedCache.IdentityIsStable` | XV6-code/bio.c:87-124 | a buffer keeps its block while any process waits for it, holds it or is releasing it |
| `SharedCache.PinnedStaysCached` | XV6-code/bio.c:110-126 | a block pinned by log_write is never recycled |
| `SharedCache.RecyclesLeastRecent` | XV6-code/bio.c:110-126 | bget recycles, among the unreferenced clean buffers, the one with the oldest stamp |
| `SharedCache.StampsTell` | XV6-code/bio.c:166-192 | a step that leaves a buffer without references gives it a later stamp than any other has, and no other step changes a stamp |
| `SharedCache.ToFrontStamps` | XV6-code/bio.c:180-189 | moving a released buffer to the front keeps the ring in order of most recent release, every buffer once |
| `BufferRing.Bcache.constructor` | XV6-code/bio.c:50-74 | binit links every buffer once, the last one first, and nothing is cached |
| `BufferRing.Bcache.Unlink` | XV6-code/bio.c:183-184 | taking a buffer out of the linked ring leaves the others in their order |
| `BufferRing.Bcache.LinkFirst` | XV6-code/bio.c:185-188 | putting it behind the head gives the ring with it in front |
| `BufferRing.Bcache.FindCached` | XV6-code/bio.c:92-103 | the search from the front finds the block's buffer if there is one |
| `BufferRing.Bcache.FindVictim` | XV6-code/bio.c:110-126 | the search from the back finds the first unreferenced clean buffer if there is one |
| `BufferRing.Bcache.Bget` | XV6-code/bio.c:81-130 | finds or recycles a buffer, and has none (the panic) exactly when the block is not cached and no buffer is eligible |
| `BufferRing.Bcache.Iderw` | XV6-code/memide.c:38-60 | a dirty buffer goes to its disk block, an invalid one is filled from it, and no other buffer or block changes |
| `BufferRing.Bcache.Bread` | XV6-code/bio.c:135-148 | locks the block and returns its latest contents; step by step, a bget, an acquired lock and, for a buffer that is not valid, a read; in the simple store, one Lock |
| `BufferRing.Bcache.Bwrite` | XV6-code/bio.c:152-161 | one disk write of the buffer; in the simple store, one Write |
| `BufferRing.Bcache.SetDirty` | XV6-code/log.c:231-231 | log_write's flag pins the block; in the simple store, one Pin |
| `BufferRing.Bcache.Brelse` | XV6-code/bio.c:166-192 | gives the block up; step by step, an unlocking and a drop of the reference; when nobody is left the buffer comes first in the ring, the others in their order, and else the ring stays as it is; in the simple store, one Unlock |
| `CacheRoom.EnoughBuffers` | XV6-code/bio.c:110-129 | with more buffers than pinned blocks and references together, bget finds one to recycle |
| `CacheRoom.RoomExact` | XV6-code/bio.c:110-129 | with nothing held, bget finds a buffer for an unpinned block if and only if fewer blocks are pinned than there are buffers |
| `LogDisk.RecoverDurable` | XV6-code/log.c:115-122 | recovery gives contents v exactly when the logged copies and the unlogged home blocks hold v |
| `LogDisk.RecoverTwice` | XV6-code/log.c:115-122 | recovering a recovered disk changes nothing, and its header is empty |
| `LogDisk.CommitIsAtomic` | XV6-code/log.c:176-202 | after any of commit's disk writes, recovery gives all old home blocks before the first write_head and all new ones from it on |
| `LogDisk.RecoveryStaysDurable` | XV6-code/log.c:69-82 | a crash after any number of installs recovers to the same contents |
| `CrashLog.KeepCommitPoint` | XV6-code/log.c:197-197 | the disk write of the first write_head makes every write of the transaction durable at once |
| `CrashLog.KeepStoreHome` | XV6-code/log.c:73-81 | an install touches no log block and keeps what recovery would give |
| `CrashLog.KeepClearPoint` | XV6-code/log.c:199-200 | the header is cleared only after every home block is installed |
| `CrashLog.KeepCrash` | XV6-code/log.c:115-122 | a crash at any moment leaves a disk from which recovery continues with what was committed |
| `Storage.StepInv` | XV6-code/log.c:69-233 | every step of any process, of a commit or of a recovery, and a crash between any two, keeps the invariant of the whole stack, but for a write_log that starts on more blocks than the log area has room for |
| `Storage.NoOverrun` | XV6-code/log.c:177-190 | that step is impossible when LOGSIZE <= log.size - 1, and when NBUF <= log.size |
| `Storage.FullCache` | XV6-code/bio.c:110-129 | when write_log starts on as many blocks as there are buffers, they have pinned every buffer with blocks outside the area, so its first bread finds neither its block nor a buffer to recycle |
| `Storage.RunRecord` | XV6-code/log.c:126-233 | in every run of every configuration the log record keeps its invariant, and the header on disk and in its buffer lists distinct blocks outside the log area |
| `Storage.CrashSafety` | XV6-code/log.c:69-202 | in every run, with LOGSIZE <= log.size - 1 or NBUF <= log.size, and in every other configuration as long as write_log has not started on too many blocks, recovering from the disk as it is gives exactly the committed contents of every home block |
| `Overrun.CrashSafetyExact` | XV6-code/log.c:177-230 | with two or more budgets in LOGSIZE, every reachable disk recovers to the committed contents if and only if LOGSIZE <= log.size - 1 or NBUF <= log.size |
| `Overrun.HomeBlockOverwritten` | XV6-code/log.c:177-190 | with more buffers than the log area has blocks, a run in which write_log writes over the home block behind the area before anything is committed |
| `Overrun.OverflowHappens` | XV6-code/log.c:213-233 | a run of the whole stack, from power-on through breads and log_writes, in which the logged list outgrows the log area |
| `Overrun.AreaExact` | XV6-code/log.c:213-233 | the logged list stays in the log area in every run of the whole stack if and only if LOGSIZE <= log.size - 1 or NBUF < log.size |
| `Overrun.GuardExact` | XV6-code/log.c:213-220 | in the runs of the whole stack no operation that has logged m blocks, and calls log_write on a block it holds and may log, meets panic("too big a transaction"), if and only if the log record spares it or the cache has too few buffers for the log to reach the guard |
| `Overrun.TooBigExact` | XV6-code/log.c:218-219 | so no operation with budget left meets it if and only if LOGSIZE <= log.size - 1 or NBUF < log.size - 1 |
| `Overrun.RepositoryCanRefuse` | XV6-code/mkfs.c:25-25 | with the repository's constants one can |
| `Overrun.CommitBuffersExact` | XV6-code/log.c:177-190 | in a log area with room for LOGSIZE blocks, and with nobody holding a buffer, every commit finds one to begin with if and only if LOGSIZE < NBUF |
| `Overrun.LargerAreaCanPanic` | XV6-code/bio.c:110-129 | with the repository's constants and a log area one block larger, a run of the whole stack logs 30 blocks and its commit has no buffer to begin with |
| `Overrun.OverflowPanics` | XV6-code/bio.c:110-129 | with NBUF <= log.size, a commit of a list that has outgrown the area stops at panic("bget: no buffers") |
| `Overrun.RepositoryIsCrashSafe` | XV6-code/log.c:176-202 | with the repository's constants every state of every run recovers to the committed contents |
| `Overrun.RepositoryCanPanic` | XV6-code/bio.c:110-129 | with the repository's constants a run of the whole stack logs 30 blocks and its commit has no buffer to begin with |
| `Storage.CommittedChangesAtOnce` | XV6-code/log.c:192-202 | the committed contents change at the disk write of the first write_head and nowhere else, and then to the latest contents |
| `Storage.NoOperationAtCommit` | XV6-code/log.c:145-174 | in every run of every configuration no operation is in progress when the header is written |
| `Storage.WholeOperations` | XV6-code/log.c:124-233 | in the runs of CrashSafety each operation's writes are all durable or none is, and none while it is in progress |
| `Storage.Durability` | XV6-code/log.c:192-202 | when a commit has returned, all that has been logged is a committed prefix of the history in every later state, whatever crashes |
| `Storage.DurabilityExact` | XV6-code/log.c:145-174 | an operation that has ended is durable in a later state if and only if it logged nothing or a commit point lies in between with no crash before it |
| `Storage.DurableAtReturn` | XV6-code/log.c:145-174 | when end_op returns, its operation is durable if and only if it logged nothing or was the last one in progress |
| `Overrun.EarlyReturn` | XV6-code/log.c:145-174 | a run with two operations in progress: end_op of the first returns, what it logged is not committed, and a crash at that moment loses it |
| `Storage.SleepersHaveReason` | XV6-code/log.c:126-174 | in every run of every configuration, crashes included, a process asleep in begin_op has a reason to be |
| `Storage.ReadersSeeLatest` | XV6-code/bio.c:135-148 | in the runs of CrashSafety bread of a home block returns the latest contents any log_write gave it |
| `Storage.SharedBuffers` | XV6-code/bio.c:81-192 | in every run a buffer's count is the number of processes waiting for, holding or releasing it, it has one holder, a block has one buffer, and a valid clean buffer nobody holds equals its disk block |
| `Storage.BuffersKeepIdentity` | XV6-code/bio.c:81-192 | in every run a buffer stays that of the same block while anyone waits for, holds or releases it |
| `Storage.LeastRecentIsRecycled` | XV6-code/bio.c:110-126 | in every run bget takes over the eligible buffer that was left without references longest ago, as the reference counts of the run tell it, with binit's order after power-on and crashes |
| `Storage.LoggedBlocksStayCached` | XV6-code/log.c:177-190 | in the runs of CrashSafety a logged block stays, until install_trans has written it home, in a valid dirty buffer whose data is the latest any log_write gave it, so write_log copies that |
| `Storage.NoPanic` | XV6-code/log.c:145-220 | in every run of every configuration an operation in progress meets no commit and an outstanding count of at least one, so panic("log.committing") and panic("log_write outside of trans") are unreachable; panic("too big a transaction") is, for one with budget left, when LOGSIZE <= log.size - 1 |
| `Storage.QuietDisk` | XV6-code/log.c:192-202 | in the runs of CrashSafety, outside commit and recovery, the header on disk is empty and every home block is as committed |
| `Storage.RecoveryKeeps` | XV6-code/log.c:115-122 | from a crash to the end of recovery, however often it crashes again, nothing committed changes |
| `Storage.RecoveryIsIdempotent` | XV6-code/log.c:115-122 | any number of crashes inside recovery, then one complete run, leave what one uninterrupted recover_from_log of the first crashed disk would have left |
| `Completion.CommitCompletes` | XV6-code/log.c:145-202 | whenever end_op has started a commit, nobody holds a buffer and there is one more buffer than logged blocks, the run can go on to the end of end_op; then all that was logged is committed and at home, and the log is empty |
| `Completion.RecoveryCompletes` | XV6-code/log.c:115-122 | after power-on and after any crash a run can go on to the end of recovery with two buffers; then every home block is as committed and the log is empty |
| `LogMethods.KernelLog.WriteHead` | XV6-code/log.c:101-113 | one disk write puts the in-memory header on disk and changes nothing else |
| `LogMethods.KernelLog.ReadHead` | XV6-code/log.c:85-96 | the header on disk becomes the one in memory, and the disk stays as it is |
| `LogMethods.KernelLog.InstallTrans` | XV6-code/log.c:69-82 | copies each logged block home, one disk write each, and unpins it; the disks on the way are exactly the install trace |
| `LogMethods.KernelLog.WriteLog` | XV6-code/log.c:177-190 | copies each logged block from the cache to the log, one disk write each; the disks on the way are exactly the log trace |
| `LogMethods.KernelLog.Commit` | XV6-code/log.c:192-202 | with NBUF >= n + 1 and no buffer held, commit never runs out of buffers, makes all home blocks new, and the disk after each of its writes recovers to all old or all new, all new exactly from the first write_head on |
| `LogMethods.CommitRoomExact` | XV6-code/log.c:177-190 | that bound is exact: with all n logged blocks pinned the first bread of write_log has a buffer if and only if n < NBUF |
| `LogMethods.KernelLog.RecoverFromLog` | XV6-code/log.c:115-122 | the disk becomes exactly Recover of what it was, and after each write on the way it recovers to the same home blocks |
| `LogMethods.KernelLog.LogWrite` | XV6-code/log.c:213-233 | panics exactly under its two guards, otherwise absorbs or appends the block and pins it |
| `LogMethods.KernelLog.BeginOp` | XV6-code/log.c:126-141 | goes on exactly if no commit runs and the log has room for one more budget beside those reserved, and then reserves it; else sleeps |
| `LogMethods.KernelLog.EndOp` | XV6-code/log.c:145-174 | the last operation commits and the home blocks are then the latest contents; the disk after each of its writes recovers to all old or all new, all new exactly from the first write_head on; otherwise nothing is written; panics exactly if a commit is running, and else wakes begin_op |
| `FreeList.InsertSorted` | XV6-code/umalloc.c:30-43 | inserting a freed block, merged with the neighbours it touches, keeps the list address-ordered, disjoint and coalesced |
| `FreeList.InsertUnits` | XV6-code/umalloc.c:33-42 | the free units afterwards are those before and the freed block's own |
| `FreeList.CarveKeeps` | XV6-code/umalloc.c:76-82 | splitting the tail off a block keeps the list sorted and divides its units between the list and the tail |
| `FreeList.Canonical` | XV6-code/umalloc.c:24-44 | there is exactly one sorted coalesced list for a set of free units |
| `FreeList.FreeUndoesMalloc` | XV6-code/umalloc.c:24-90 | freeing what was just allocated restores the free list, whatever splitting and merging it took |
| `Allocator.Units` | XV6-code/umalloc.c:69-69 | a request gets a header and the least number of units that hold nbytes |
| `Allocator.Heap.FindPlace` | XV6-code/umalloc.c:30-32 | the walk round the ring ends, at the node after which the block belongs, across the wrap as well |
| `Allocator.Heap.MergeUp` | XV6-code/umalloc.c:33-37 | joins the block to its upper neighbour exactly when they touch |
| `Allocator.Heap.MergeDown` | XV6-code/umalloc.c:38-42 | joins it to its lower neighbour exactly when they touch; the ring is then that of the insertion |
| `Allocator.Heap.Free` | XV6-code/umalloc.c:24-44 | the ring stays one circular address-ordered list with a single wrap; the block leaves the live ones and is inserted, and every core unit stays free or live, not both |
| `Allocator.Heap.Morecore` | XV6-code/umalloc.c:46-61 | fresh core of at least 4096 units is added above everything and merged; without it nothing changes |
| `Allocator.Heap.Take` | XV6-code/umalloc.c:75-84 | the block is taken whole or its tail is split off, from units that were free |
| `Allocator.Heap.Malloc` | XV6-code/umalloc.c:63-90 | ends with at most one morecore call, which runs exactly if no free block fits, returns 0 exactly if none fits and sbrk fails, otherwise returns enough units of core that overlap no live block: the end of the first block that fits, going round the ring from freep or from where morecore left it, and freep is then the node before it |
| `PipeRing.WrappedDistance` | XV6-code/pipe.c:85-106 | the wrapped 32-bit counters tell full, empty and the number of bytes apart |
| `PipeRing.SlotOfWrapped` | XV6-code/pipe.c:93-116 | a wrapped counter selects the same slot as the true count, because 512 divides 2^32 |
| `PipeRing.WriteRunHolds` | XV6-code/pipe.c:84-94 | what a writer stores follows what was stored before |
| `PipeRing.ReadRunHolds` | XV6-code/pipe.c:113-117 | what a reader takes are the oldest bytes not yet taken |
| `PipeMachine.Fifo` | XV6-code/pipe.c:78-121 | in every interleaving of readers, writers, kills and closes the bytes read are a prefix of the bytes stored, and the counters' difference mod 2^32 is between 0 and 512 and is their distance |
| `PipeMachine.WritesItsBytes` | XV6-code/pipe.c:78-98 | in every run, across all sleeps of a pipewrite, the bytes it has stored are in order the first i of its buffer while it is in the call, all of them if it returns their number, and not all if it returns -1 |
| `PipeMachine.ReadsItsBytes` | XV6-code/pipe.c:100-121 | in every run a piperead returns the number of bytes it has taken, at most those asked for, or -1 and has taken none |
| `PipeMachine.CallSteps` | XV6-code/pipe.c:78-121 | in every run a writer stores what fits and a reader takes what it asks for and is there, oldest first; exactly when each sleeps, returns and returns -1 |
| `PipeMachine.OnlyCallsMoveBytes` | XV6-code/pipe.c:78-121 | in every run bytes are stored only by writers and taken only by readers |
| `PipeMachine.WritersNeverStuck` | XV6-code/pipe.c:85-92 | in every run a writer asleep while the lock is free means a full pipe with an open read end |
| `PipeMachine.KilledNeverSleep` | XV6-code/pipe.c:85-110 | in every run no killed process sleeps in a call |
| `PipeMachine.WakeupExact` | XV6-code/pipe.c:84-97 | a step lets a reader sleep on a pipe with bytes in it if and only if it is a killed writer that leaves with bytes stored and more to store |
| `PipeMachine.ReadersNeverStuck` | XV6-code/pipe.c:106-112 | in every run without such a step a sleeping reader means an empty pipe with an open write end |
| `PipeMachine.LostWakeupHappens` | XV6-code/pipe.c:85-89 | a run in which the wakeup is lost |
| `PipeMethods.PipeObject.Write` | XV6-code/pipe.c:78-98 | stores the next bytes in order until done or full, and says when it wakes, sleeps or fails |
| `PipeMethods.PipeObject.Read` | XV6-code/pipe.c:100-121 | takes the oldest bytes, as many as asked for and there, and says when it wakes, sleeps or fails |
| `PipeMethods.PipeObject.Close` | XV6-code/pipe.c:59-75 | shuts one end and wakes whoever was waiting for something that can no longer come, and nobody else; the pipe is freed exactly when the second end closes |
| `SharedFiles.StepInv` | XV6-code/file.c:25-80 | every step of filealloc, filedup, fileclose, pipealloc, pipeclose, fdalloc and their callers, exit's closing loop included, and every call of piperead and pipewrite, by any process, keeps counts, slots and pipe ends consistent |
| `SharedFiles.RefsAreDescriptors` | XV6-code/file.c:25-80 | in every run, between calls, f.ref is the number of descriptor slots naming f, and 0 means FD_NONE |
| `SharedFiles.ReusedUnderExit` | XV6-code/file.c:56-80 | a run in which exit's descriptor, closed and not yet cleared, names a file that another process has been given, so that counts and descriptors agree only between calls |
| `SharedFiles.NoUseAfterFree` | XV6-code/pipe.c:59-75 | in every run no file, and no process about to call pipeclose, names a freed pipe |
| `SharedFiles.DupNamesTheSame` | XV6-code/sysfile.c:55-67 | in every run, whatever others do during the call, sys_dup leaves the process with its table and the file of the given descriptor also in the lowest free one |
| `SharedFiles.PipeGivesBothEnds` | XV6-code/sysfile.c:423-445 | in every run the two descriptors of sys_pipe name the read end and the write end of one pipe |
| `SharedFiles.DescriptorsNameOpenFiles` | XV6-code/sysfile.c:318-333 | in every run, between the calls of a process, each of its descriptors names a file that is filled in, never one that an open has only taken or a close has emptied |
| `SharedFiles.InCallMeansOpen` | XV6-code/file.c:97-125 | in every run a process inside piperead or pipewrite is on an allocated pipe with its own end open |
| `SharedFiles.NobodyInsideAtClose` | XV6-code/file.c:56-74 | in every run nobody is inside a call on an end when another process shuts it |
| `PipeCalls.CloseFindsNobody` | XV6-code/pipe.c:59-75 | so the machine of readers and writers closes an end only while nobody uses it, which is what it takes for granted |
| `SharedFiles.FreedExactlyOnce` | XV6-code/pipe.c:59-75 | in every run a pipe is freed exactly when neither end has a holder, and once, even if the file slot was reused before pipeclose |
| `SharedFiles.NoPanic` | XV6-code/file.c:44-63 | in every run the panics of filedup and fileclose are unreachable |
| `FileMethods.OpenFiles.FileAlloc` | XV6-code/file.c:26-41 | hands out the first free slot, and none exactly when all are used |
| `FileMethods.OpenFiles.FileDup` | XV6-code/file.c:44-53 | adds one reference; panics exactly on an unused file |
| `FileMethods.OpenFiles.FileClose` | XV6-code/file.c:56-80 | drops one reference and, with the last, frees the slot and shuts the pipe end |
| `FileMethods.OpenFiles.FdAlloc` | XV6-code/sysfile.c:40-53 | takes the first empty descriptor, and fails exactly when there is none |
| `FileMethods.OpenFiles.SysDup` | XV6-code/sysfile.c:55-67 | a second descriptor and reference for the same file, or -1 and no change, exactly when the descriptor is bad or none is left |
| `FileMethods.OpenFiles.SysClose` | XV6-code/sysfile.c:93-104 | clears the descriptor and drops its reference; -1 and no change exactly for a bad descriptor |
| `FileMethods.OpenFiles.SysOpen` | XV6-code/sysfile.c:318-333 | a file with one reference and the access the mode asks for in the first free descriptor, or -1 with both tables as they were, exactly when a slot is missing |
| `FileMethods.AccessModes` | XV6-code/sysfile.c:331-332 | O_RDONLY, O_WRONLY and O_RDWR give the access they name, whatever other flags are set |
| `FileMethods.OpenFiles.PipeAlloc` | XV6-code/pipe.c:22-57 | the first two free files on the two ends of a new pipe, and no other file changed, or nothing, exactly when two slots or the memory are missing |
| `FileMethods.OpenFiles.SysPipe` | XV6-code/sysfile.c:423-445 | succeeds exactly when two files, two descriptors and the memory are there; then the two lowest descriptors name the read end and the write end of a new pipe, in the first two free files, and nothing else changes; a failed call leaves tables and pipes as they were |
| `ImageCodec.RoundInode` | XV6-code/mkfs.c:183-208 | an inode read back from its bytes is the one written |
| `ImageCodec.BackInode` | XV6-code/mkfs.c:183-208 | and bytes read as an inode and written back are the same bytes |
| `ImageCodec.LowestFirst` | XV6-code/mkfs.c:43-65 | xshort and xint: byte k of a number is its k-th digit to base 256, lowest first |
| `ImageCodec.InodeLayout` | XV6-code/mkfs.c:183-208 | where each field of an inode is among its 64 bytes |
| `ImageCodec.DirentLayout` | XV6-code/mkfs.c:147-150 | a directory entry is the number, then the name, cut at 14 bytes or filled up with zeroes |
| `ImageCodec.SetBitReads` | XV6-code/mkfs.c:246-248 | setting a bit sets that bit and no other |
| `Image.WinodeReadBack` | XV6-code/mkfs.c:183-208 | winode changes one inode and no other, also in the same sector |
| `Image.AllocateOne` | XV6-code/mkfs.c:271-284 | storing the next free block number in an empty place keeps every block below freeblock referenced exactly once |
| `Image.EntryBlock` | XV6-code/mkfs.c:280-284 | writing an entry of an indirect block changes that pointer and no other |
| `Image.DataBlock` | XV6-code/mkfs.c:288-290 | writing a data block moves no pointer of any file |
| `Image.BlankIsSound` | XV6-code/mkfs.c:110-115 | the cleared image with any super block holds no file and no block |
| `AppendRound.Round` | XV6-code/mkfs.c:268-294 | one round of iappend's loop leaves a sound image in which the file has grown by the chunk and nothing else has changed |
| `AppendRound.FreshBlocks` | XV6-code/mkfs.c:271-284 | a round allocates exactly the blocks the larger size needs |
| `AppendRound.RoundedSize` | XV6-code/mkfs.c:158-163 | rounding a file's size up to the next block boundary keeps the image sound if and only if the last block is not full |
| `AppendRound.RoundedContents` | XV6-code/mkfs.c:158-163 | and adds only zero bytes to the contents, unless the last block is full |
| `Mkfs.Builder.constructor` | XV6-code/mkfs.c:93-115 | a cleared image, log and all, whose super block holds the layout and nothing else |
| `Mkfs.Builder.Ialloc` | XV6-code/mkfs.c:223-235 | below number 208 the next inode, of the given type, with one link and no contents, and no other file changes; above, exactly which bytes of which other sector are overwritten, up to the end of the image |
| `Mkfs.Builder.LoseInode` | XV6-code/mkfs.c:223-251 | with the inode blocks full, ialloc followed by balloc: inode 208 shares its sector with the bitmap, what stands in its place afterwards depends on freeblock alone and has type 0xFFFF, and no other file changes |
| `Mkfs.Builder.BlockFor` | XV6-code/mkfs.c:269-286 | block fbn of the file through its direct or indirect pointers, allocated where missing, with every other pointer and every data block unchanged; fails exactly when the image has no block left for it |
| `Mkfs.Builder.Iappend` | XV6-code/mkfs.c:255-297 | succeeds exactly when the file stays within MAXFILE blocks and the image has room; then its contents, read through its pointers, are the old ones followed by the new bytes, every other inode and its contents stay, every block from nmeta to freeblock is referenced exactly once, and sectors from freeblock up are zero |
| `Mkfs.Builder.Balloc` | XV6-code/mkfs.c:237-251 | the bitmap marks exactly the blocks below freeblock, which are the metadata and the blocks some file holds |
| `Mkfs.Builder.AddFile` | XV6-code/mkfs.c:130-156 | gives up on a name with a slash; puts its inode outside the inode blocks exactly from number 208 on, number 208 in the sector of the bitmap with no other file changed; otherwise succeeds exactly when the file and its directory entry fit; then there is a fresh inode of type T_FILE with one link and its contents and an entry at the end of the root directory, and all other files, the super block and the log stay |
| `Mkfs.Builder.AddData` | XV6-code/mkfs.c:152-153 | the copying loop gives a new file exactly the host file's bytes, or fails exactly when they do not fit |
| `Mkfs.Builder.RoundRoot` | XV6-code/mkfs.c:158-163 | the root directory's size is rounded up and nothing else changes; the image is sound afterwards if and only if the last block was not full |
| `Mkfs.Builder.Build` | XV6-code/mkfs.c:117-165 | for every list of files: succeeds exactly when there are at most 206, no name has a slash and all fit, spoils the image exactly when there are more and the first 206 and the name of the next will do, gives up otherwise; if it succeeds inode k + 2 is a file, of type T_FILE with one link, that holds file k, the root is a directory that lists them all, freeblock counts exactly the blocks they need, the bitmap agrees, the super block and the empty log are as they were, and the image is sound if and only if two more than the number of files is no multiple of 32; when it is spoiled the first 206 files are in it and inode 208 is in the sector of the bitmap |
| `Mkfs.ListingAt` | XV6-code/mkfs.c:120-150 | the entries of the root directory in order: itself, its parent, which is itself, and each file under its inode number |
| `Mkfs.StrippedLaw` | XV6-code/mkfs.c:138-143 | one leading underscore is left out of a name |
| `Mkfs.ThirtyFiles` | XV6-code/mkfs.c:158-163 | thirty empty files: Build succeeds, they are all there, and the image is not sound |
| `Mkfs.ManyFiles` | XV6-code/mkfs.c:130-156 | 207 empty files: the last of them spoils the image |
| `Grep.MatchHere` | XV6-code/grep.c:85-96 | true exactly when the text starts with pieces that spell the pattern's items one by one, up to its end if the pattern closes with $ |
| `Grep.MatchStar` | XV6-code/grep.c:99-106 | true exactly when the text starts with any number of c followed by such pieces |
| `Grep.Match` | XV6-code/grep.c:72-82 | true exactly when that holds at some position of the text, only the first under ^ |
| `Grep.BeginsItem` | XV6-code/grep.c:85-106 | the meaning of a pattern, item by item: the first item takes one string of its own off the text |
| `Grep.StarLaw` | XV6-code/grep.c:99-106 | c* then re begins a text exactly if re does, or the text begins with a character that c takes and c* then re begins the rest |
| `Grep.CharLaw` | XV6-code/grep.c:85-96 | a character that is neither starred nor a closing $ takes one character, itself or, for a dot, any, and the rest of the pattern the rest of the text |
| `Grep.EndLaw` | XV6-code/grep.c:85-96 | the empty pattern begins every text, and $ alone only the empty one |
| `Grep.OccursLaw` | XV6-code/grep.c:72-82 | after ^ a pattern is found exactly if it begins the text, any other exactly if it begins the text or is found further on |
| `Grep.PlainIsSubstring` | XV6-code/grep.c:72-82 | a pattern without special characters is found exactly as a substring |
| `Grep.PlainLine` | XV6-code/grep.c:72-96 | between ^ and $ it is the whole line |
| `LineEdits.MovedKeeps` | XV6-code/editor.c:941-953 | a block move is a reordering of the lines |
| `LineEdits.MoveBack` | XV6-code/editor.c:941-953 | and is undone by moving the block back |
| `LineEdits.RotatedIsMoved` | XV6-code/editor.c:941-953 | for a block and a target outside it, what the six assignments do to a sequence is the block move |
| `LineList.Relink` | XV6-code/editor.c:947-952 | after the six assignments the links are those of the chain with two neighbouring blocks exchanged, for every choice of the three nodes |
| `LineList.MoveLinks` | XV6-code/editor.c:947-952 | so they reorder the chain, or exactly when the three positions are out of step tear a stretch out of it |
| `Editor.Editor.constructor` | XV6-code/editor.c:570-589 | head and tail linked to each other, no lines |
| `Editor.Editor.NewNode` | XV6-code/editor.c:613-649 | an empty line after the given node, links staying inverse, the count one more, the cursor back at the head; null gives null; behind the tail the node is counted but the list does not reach it |
| `Editor.Editor.DeleteNode` | XV6-code/editor.c:652-683 | the list without that node, and the node after it; null, the head and the tail are refused and nothing changes |
| `Editor.Editor.FreeList` | XV6-code/editor.c:592-610 | the list without the nodes from start to end, and their number; a root at either end is refused; with end before start everything up to the tail goes and 0 is reported |
| `Editor.Editor.FindNode` | XV6-code/editor.c:686-754 | where the four-way search ends for every cursor node and number, and when it runs off the list; if they belong together, it returns the index-th line for every line number, null for a number out of range, and the cursor's line for 0, running off the list exactly if the cursor is at the head |
| `Editor.Editor.StartCursor` | XV6-code/editor.c:401-402 | cmdLoop's cursor is consistent, also in an empty file, where it is at the tail |
| `Editor.Editor.Display` | XV6-code/editor.c:312-362 | the listing loop moves node and number together over the lines shown, or, without line numbers, the node to the tail and the number not at all |
| `Editor.Editor.ShowFile` | XV6-code/editor.c:257-364 | where a listing in either direction leaves the cursor's node and number, from any cursor: consistent, behind the last line shown, if and only if line numbers are shown and the first number leads to its line; when it follows a null pointer; from a consistent cursor that is exactly if it goes back to line 0 with the cursor at the head |
| `Editor.UnnumberedListing` | XV6-code/editor.c:312-362 | an editor of two lines in which one without them breaks the cursor |
| `Editor.PageBack` | XV6-code/editor.c:281-295 | an editor of two lines in which a page back to line 0 breaks it |
| `Editor.LineLost` | XV6-code/editor.c:757-780 | an editor of two lines in which ins after a listing without line numbers puts the line behind the tail |
| `Editor.EmptiedFileHasNoLine` | XV6-code/editor.c:686-754 | an editor, emptied by del, in which findNode runs off the list |
| `Editor.Editor.Ins` | XV6-code/editor.c:757-780 | inserts the typed line after the node the number leads to from any cursor, which is line idx for a consistent one, the tail of an empty file included; behind the tail the line is counted and lost; refuses exactly the numbers out of range |
| `Editor.Editor.Mod` | XV6-code/editor.c:783-809 | replaces the line the number leads to from any cursor, line idx for a consistent one; at the head nothing happens, at the tail a line is added; follows an unset or null pointer exactly when the number is 0 or leads nowhere |
| `Editor.Editor.Del` | XV6-code/editor.c:880-889 | from a consistent cursor deletes the lines idx1 to idx2, and nothing if they are the wrong way round; for every cursor and every other pair of numbers, which lines go, what is reported and when a null pointer is followed |
| `Editor.Editor.MoveNodes` | XV6-code/editor.c:947-952 | the six assignments of cut turn the list into the one with the two blocks exchanged, or tear a stretch out of it; the cursor still matches its line if and only if that line is outside the reordered stretch or the block stays where it is |
| `Editor.Editor.Cut` | XV6-code/editor.c:941-957 | from a consistent cursor moves the lines idx1 to idx2 behind line tar; for every cursor and all numbers, when it refuses, when it follows a null pointer, which blocks change places, when it tears the list, and, if the cursor matched its line, when it still does |
| `Editor.CutStrandsCursor` | XV6-code/editor.c:941-953 | an editor of two lines, started by cmdLoop, in which moving the first line behind the second takes it from under the cursor |
| `Editor.CutTearsChain` | XV6-code/editor.c:941-953 | an editor in which moving line 1 behind line 0 loses it, while it is still counted |
| `Editor.CutBehindLineZero` | XV6-code/editor.c:941-953 | an editor in which the same command runs off the list |

## Left out

- SharedCache.StepRefines: says nothing about when a waiting process gets a buffer; only safety is stated here.
- BufferRing.Bcache.Bread: one process at a time; waiting for another process is in the step system.
- LogMethods.KernelLog.EndOp: the commit it starts runs without other processes holding buffers; interleavings are in the step system.
- Mkfs.Builder.Iappend: says nothing about the unfinished image when mkfs gives up.
- Mkfs.Builder.Build: stops when an inode is outside the inode blocks, where main goes on; `Mkfs.Builder.LoseInode` says what balloc makes of the first of them.
- GroupCommit.GuardExact: takes LOGSIZE to be a multiple of MAXOPBLOCKS, as param.h defines it, as many blocks behind the log area, a process for each budget, and a log area of two blocks or more.
- GroupCommit.ReservationExact: takes the same.
- GroupCommit.OverflowExact: takes the same, and at least two budgets in LOGSIZE.
- Overrun.CrashSafetyExact: takes what OverflowExact takes.
- Overrun.AreaExact: takes what OverflowExact takes.
- Overrun.GuardExact: takes what GroupCommit.GuardExact takes.
- Overrun.TooBigExact: takes the same.
- Overrun.CommitBuffersExact: takes the same.
- Editor.Editor.Cut: asks, like the other commands, for a list that no cut has torn and no ins has put a line behind.
- Inodes and directories in the kernel (`fs.c`), and so the inode part of fileclose and sys_open, and sys_link, sys_unlink, sys_mkdir, sys_chdir.
- fileread, filewrite and filestat, and exec: they pass through to code that is not modelled.
- The rest of exit and fork, beyond what they do to descriptors.
- sleep, wakeup, spin locks and sleep locks themselves: an acquire is a guarded step and a wakeup wakes all.
- Host errors in mkfs, other than a slash in a name, and its printing.
- grep's reading of lines and files, and its printing.
- The text the editor displays, its parsing of numbers, and loading and saving of files.
- Device drivers, the boot loader, traps, the shell and the small utilities: port input and output, or plain loops.
