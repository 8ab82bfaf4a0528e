# Verified models of xv6 kernel and user code

This project states and proves properties of the algorithms in this collection of xv6 kernels and
programs. `dafny verify dfyconfig.toml` checks all of it. There is one module for each component, and
each imperative part of the source is an imperative class or method, proved against a specification
that is independent of it.

- `RedoLog` is the write-ahead log of `Project1/log.c`. The disk takes block writes one at a time, and
  `power` is the number of writes left before the machine stops, so a crash can fall between any two
  writes, also during recovery. `View` is what a run amounts to, and `Run` the view after any sequence of
  events, with all writes ever logged; the log on its disk takes the steps of the view. `WholeOperations`
  and `RunAndRecover` are about whole runs: whatever happens, in whatever order, and however many crashes
  there are, the disk after recovery holds whole operations only, in their order, and all those whose
  group's header write reached the disk. The `Effect` lemmas say what each event does to a run in plain terms,
  `CommittedLasts` that what one commit has sealed is shown for ever after, and `RunInPeace` that without a
  crash every write ever logged ends up in its home block. `SpaceReserved` is the reservation argument of `begin_op`, and
  `SpaceOnRuns` says that it holds in every run of operations within their budgets.
  `PanicsOnRuns` says what remains of the panic tests of `log_write` in spite of it; two lemmas give runs
  within all budgets that panic: with a log of `LOGSIZE` blocks, which is what `mkfs` makes, at a write that
  has space reserved (`MkfsLogTooSmall`), and with any larger log at the write of a block that is listed
  already, when the list is full (`FullListRefusesOldBlock`). A full list also pins every buffer;
  `CommitOnRuns` says when the buffer cache has one left for the commit, and `ReaderStopsCommit` gives a run
  in which a single reader has taken it.
- `FilterLock` is the N-thread Peterson lock as a transition system with one shared access per step,
  for every N and every schedule, under sequential consistency. `FilterLockFairness` is about infinite
  schedules: no thread starves in the lock under any that lets every thread go on that has begun `lock` and
  not finished `unlock`. A thread that is outside may stop for ever. `SharedTotal` is what the program prints:
  the number of passes through the lock times `NUM_ITERS`.
- `FileBlocks` is the block layer of `Project1/fs.c`: the bitmap allocator, direct and indirect maps,
  and byte-range reads and writes, which refine one flat byte string for each inode. `logged` collects
  the blocks given to the log since the transaction began. `Recorded` says that every block and
  bitmap bit that has changed is among them, and the contracts say so of the inode, so that the budget that
  the log assumes of an operation is proved for what each transaction of `filewrite` changes.
- `Links` relates link counts to directory entries over `create`, `link` and `unlink`. A link that has
  been counted but not yet entered is `pending`, so the two halves of `sys_link`, between which the inode
  is unlocked, may be interleaved with other operations. The linked directories are a tree: from each, ".."
  leads to the root. What is entered in a directory that is itself no longer linked breaks this, and only
  that does: a file's count is then one more than its entries, for good.
- `Directories` puts the entries of `Links` into the byte strings of `FileBlocks`, 16 bytes each: `create`,
  `link`, `unlink` and `iput` over `readi` and `writei` do on disk what they do in `Links`, keep the bytes of
  every file, and log all that they change, in fewer blocks than `MAXOPBLOCKS`.
- `CrashSafety` puts those operations, and the chunks of `filewrite`, through `RedoLog`, on the disk layout of
  `mkfs`. Wherever the power fails, the disk then holds the file system as the last committed operation left
  it, and the tree of directories is a good one (`RunTransactions`); if it does not fail, that is the last
  operation (`RunTransactionsInPeace`).
- `VirtualMemory` is the two-level page tables over the free page list. `owner` says who holds each
  physical page; because it is a function of the page, no page is ever lost or held twice. `Entry` is
  the flat map that a page directory stands for. `Takes` counts the pages that an operation uses, so that
  each fails exactly when the free list is too short for its pages and the page tables that are missing.
  `AccessOf` is what the hardware allows, by the entries of both levels together.
- `KrAllocator` is the K&R heap: an address-ordered ring with splitting and coalescing.
- `Shell` is the command parser over a moving cursor, and the pass that writes NULs into the input line.
  `ShellGrammar` is the language of command lines, given without reference to the parser: how lines are spelled
  as lexemes, how lexemes make up a line, and which tree a line means. `ParserIsGrammar` says that the parser
  accepts exactly these lines, and returns their trees.
- `Scheduler` is the feedback queues and the monopoly queue of `Project2/proc.c`.
- `BufferCache` is the doubly linked ring of buffers of `Project1/bio.c`.
- `Pipe` is the pipe ring with wrapping counters and the sleep and wakeup it rests on, as an implementation
  of `Queue`, a queue of bytes with its processes, whose runs are the interleavings of all calls.
- `Grep` is the regular expression matcher, against a meaning of patterns given without reference to it.

Some properties that one would expect do not hold of the code as it is. Each has a member that says
exactly when they do:

- `RedoLog.PanicsOnRuns` and `RedoLog.CommitOnRuns`: operations within their budgets may panic, and so may
  the commit while a reader holds a buffer.
- `KrAllocator.NUnitsCoversRequest` and `KrAllocator.SbrkAsksEnough`: a request within eight bytes of 4 GiB
  wraps around, and from 2 GiB on `sbrk` gets a number that is not positive.
- `Scheduler.Ptable.Fork`: a failed copy of the address space leaves an unused slot queued.
- `Scheduler.Ptable.Setpriority`: QL3 is not sorted again.
- `Scheduler.FullQueue` with `Scheduler.Ptable.Yield`: a queue that holds the whole process table is written
  past its end.
- `Scheduler.Ptable.Setmonopoly`: for the pid 0 of unused slots it may lose a runnable process, as it does in
  the run of `Scheduler.MonopolyLosesProcess`.
- `Links.FileTree.Create` and `Links.FileTree.LinkFinish`: in a directory that is no longer linked, as in the
  run of `Links.CreateInRemoved`.
- `Pipe.Queue.AwakeStep` and `Pipe.NoLostWakeup`: a killed writer fills the pipe and does not wake the readers.

In the shell both `>` and `>>` open a file for writing without truncating it or moving to its end, and a
trailing `&` must be followed by `;` before another command.

## Model

| member | source | states |
|---|---|---|
| RedoLog.RunAndRecover | Project1/log.c:115-233 | the program carries out every sequence of events and crash points, also crashes during recovery; once a boot gets through recovery, the home blocks are the initial image with the writes of the sealed operations of the run applied, all of them, in the order in which they were logged |
| RedoLog.WholeOperations | Project1/log.c:115-233 | for every run of events and crashes, what recovery shows is the history of all logged writes without those of operations whose group's header write did not complete, in the same order; so every operation is there whole or not at all |
| RedoLog.RunInPeace | Project1/log.c:115-233 | without crashes, and with power for every commit, whenever nothing is running and no commit is due every write of the history is visible, every operation sealed, and the home blocks are the initial image with the whole history applied |
| RedoLog.CommittedLasts | Project1/log.c:193-202 | after a commit that gets its header written, whatever follows, each operation of its group is sealed and recovery shows all its writes |
| RedoLog.NothingLost | Project1/log.c:115-233 | in a run without crashes and with that power the journal is the history, and whenever the list is empty all of it is visible |
| RedoLog.FinishEffect | Project1/log.c:164-202 | the commit empties the list and lets operations enter again; if the power lasts beyond the copies all that is in the journal becomes visible and its operations sealed, otherwise, or with nothing listed, nothing does |
| RedoLog.CrashEffect | Project1/log.c:54-66 | a crash ends every operation and cuts the journal to what was visible, and takes nothing that was; with power for recovery the log is empty afterwards |
| RedoLog.BeginEffect | Project1/log.c:126-141 | a begin_op adds a new operation without blocks exactly if no commit is under way and ten blocks for each fit in thirty |
| RedoLog.PutEffect | Project1/log.c:213-233 | a log_write with room in the list is the last write of the history and of the journal, and its block is listed |
| RedoLog.EndEffect | Project1/log.c:144-162 | an end_op takes out its operation alone, and a commit is due exactly if it was the last |
| RedoLog.Log.Commit | Project1/log.c:193-202 | from any state with no operation running, whichever write is the last before the power fails, recovery shows either what it showed before or everything logged so far; nothing in between |
| RedoLog.Log.LogAndSeal | Project1/log.c:193-197 | what is visible afterwards is the whole journal if the header on disk is not zero and what was visible before if it is; the header is written exactly when the power lasts beyond the copies |
| RedoLog.Log.InstallAndClear | Project1/log.c:198-200 | installing and clearing never change what recovery shows, wherever they stop, and leave an empty log if they finish |
| RedoLog.Log.WriteLog | Project1/log.c:178-190 | the pinned buffers are copied to the log's data blocks in list order; no home block and no header changes |
| RedoLog.Log.WriteHead | Project1/log.c:102-113 | one atomic block write makes the header list exactly the logged blocks |
| RedoLog.Log.InstallTrans | Project1/log.c:69-82 | a partial installation leaves the replayed image as it was; a complete one makes the home blocks equal to it |
| RedoLog.Log.ReadHead | Project1/log.c:85-96 | memory lists what the on-disk header lists |
| RedoLog.Log.RecoverFromLog | Project1/log.c:116-122 | recovery may itself be cut short anywhere without losing a visible write, and with power for LOGSIZE + 2 writes it completes |
| RedoLog.Log.Reboot | Project1/log.c:54-66 | a crash keeps exactly the visible prefix of the journal, and after a completed boot the home blocks equal it |
| RedoLog.Log.BeginOp | Project1/log.c:126-141 | an operation enters exactly when the reservation test allows, and the space invariant is kept |
| RedoLog.Log.LogWrite | Project1/log.c:214-233 | the write is journalled and buffered; a block already listed is absorbed; the panic is taken exactly when the list is full, and a write within its operation's budget keeps the space invariant |
| RedoLog.Log.EndOp | Project1/log.c:146-163 | the last operation out, and no other, must commit |
| RedoLog.Log.FinishCommit | Project1/log.c:165-173 | after end_op's commit everything journalled is visible or nothing new is |
| RedoLog.SpaceAfterBegin | Project1/log.c:125-141 | listed blocks plus unused reservations stay within LOGSIZE when an operation enters |
| RedoLog.SpaceAfterWrite | Project1/log.c:213-233 | and when an operation within its budget of MAXOPBLOCKS distinct blocks logs one |
| RedoLog.SpaceAfterEnd | Project1/log.c:145-174 | and when one ends |
| RedoLog.ReservedWriteFits | Project1/log.c:217-219 | a write within its operation's budget passes the panic tests if and only if the list is shorter than LOGSIZE and than the disk's log; the list is full only when nothing is reserved any more and the block is listed already, and with a log of more than LOGSIZE blocks every block not listed passes |
| RedoLog.SpaceOnRuns | Project1/log.c:125-174 | in every run of operations within MAXOPBLOCKS distinct blocks, listed blocks plus unused reservations stay within LOGSIZE |
| RedoLog.PanicsOnRuns | Project1/log.c:217-219 | after every such run a write within budget panics exactly when the list is as long as LOGSIZE or the disk's log; with a log of more than LOGSIZE blocks only when every budget is used up and the block is listed already |
| RedoLog.CommitOnRuns | Project1/log.c:178-202 | after any run, commit finds a buffer for a block of the log if and only if the block is cached or the listed blocks and the buffers that others hold, as fileread does outside any operation, are fewer than NBUF together; with the log that mkfs makes that is always so while nobody else holds one |
| RedoLog.ReaderStopsCommit | Project1/file.c:105-110 | with the log that mkfs makes there is a run within all budgets that comes to a commit of 29 blocks, and with one reader beside it every buffer is pinned or held: bget panics in write_log |
| RedoLog.MkfsLogTooSmall | Project1/mkfs.c:25 | with the log that mkfs makes there is a run, with every operation within its budget, that panics at a write that has space reserved |
| RedoLog.FullListRefusesOldBlock | Project1/log.c:218-227 | whatever the size of the log beyond LOGSIZE there is a run, with every operation within its budget, that panics when an operation logs its own block again, since the test comes before absorption |
| RedoLog.ShowsAfterHeader | Project1/log.c:196-197 | once the header lists the whole group, recovery shows all of it |
| RedoLog.ReplayedIgnores | Project1/log.c:69-82 | replay does not depend on home blocks that the log lists, so repeating an installation is harmless |
| FilterLock.MutualExclusion | Project3_Locking/pthread_lock_linux_patterson.c:35-71 | in every state reachable by any schedule of any number of threads, at most one thread is between lock and unlock |
| FilterLock.LevelBound | Project3_Locking/pthread_lock_linux_patterson.c:43-61 | at most max(1, N - k) threads have left the wait loop of level k |
| FilterLock.DeadlockFree | Project3_Locking/pthread_lock_linux_patterson.c:43-61 | no reachable state has threads in lock, none in the critical section, and all of them stuck |
| FilterLock.CriticalStaysReachable | Project3_Locking/pthread_lock_linux_patterson.c:35-62 | from every reachable state with a thread in lock, some continuation puts a thread in the critical section |
| FilterLock.NoLostUpdate | Project3_Locking/pthread_lock_linux_patterson.c:74-83 | shared_resource is the number of finished increments in every reachable state, though each is a separate read and write |
| FilterLock.SharedTotal | Project3_Locking/pthread_lock_linux_patterson.c:74-98 | after every run, while nobody is in the critical section, shared_resource is NUM_ITERS times the number of times that some thread has unlocked |
| FilterLock.IncrementsCounted | Project3_Locking/pthread_lock_linux_patterson.c:74-83 | at every point the finished increments are NUM_ITERS for each pass and those of the pass under way |
| FilterLock.InvStep | Project3_Locking/pthread_lock_linux_patterson.c:35-71 | the pairwise invariant of scanners and last arrivals is kept by every single access to shared memory |
| FilterLock.PastSetShrinks | Project3_Locking/pthread_lock_linux_patterson.c:45-60 | each level holds back at least one of the threads that passed the level before |
| FilterLock.SoloProgress | Project3_Locking/pthread_lock_linux_patterson.c:46-60 | a thread that is not stuck gets nearer the critical section when it runs alone |
| FilterLock.Machine.Step | Project3_Locking/pthread_lock_linux_patterson.c:43-71 | the program on its arrays takes exactly the steps of the transition system |
| FilterLockFairness.StarvationFree | Project3_Locking/pthread_lock_linux_patterson.c:35-71 | for any number of threads and every infinite schedule in which each thread that is in lock, in the critical section or in unlock goes on, a thread in lock enters the critical section and leaves it again, however often others enter before it, and whether or not the threads outside ever run again |
| FilterLockFairness.LockReturns | Project3_Locking/pthread_lock_linux_patterson.c:35-83 | under every such schedule a thread that calls lock gets into the critical section, and later out of it |
| FilterLockFairness.RoundRobinFair | Project3_Locking/pthread_lock_linux_patterson.c:85-96 | taking turns is such a schedule, from any state of the invariant |
| FilterLockFairness.AllDoneFair | Project3_Locking/pthread_lock_linux_patterson.c:74-83 | so is every schedule in which nobody runs any more once all threads are outside the lock, as after thread_func returns |
| FilterLockFairness.Trace.ReachesCritical | Project3_Locking/pthread_lock_linux_patterson.c:43-61 | under such a schedule a thread past any level gets into the critical section, by induction from the last level down |
| FilterLockFairness.Trace.GetsBelow | Project3_Locking/pthread_lock_linux_patterson.c:48-60 | while a thread waits at a level and nobody overtakes it, every other thread gets below that level, and it may stop outside the lock |
| FilterLockFairness.Trace.ReleasedPasses | Project3_Locking/pthread_lock_linux_patterson.c:46-60 | a thread that another has overtaken at its level passes the level, though threads outside the lock may have stopped |
| FileBlocks.FileSystem.Balloc | Project1/fs.c:56-78 | the first free block is marked and zeroed; the panic is taken only when none is free |
| FileBlocks.FileSystem.Bmap | Project1/fs.c:372-400 | the block map only ever grows: every mapped position of every file keeps its block and its bytes, and each block address stays in one slot of one inode and marked in the bitmap; every block and bit that changes is logged |
| FileBlocks.Image.MapSlotOk | Project1/fs.c:372-400 | giving an empty slot a free block keeps ownership exact, leaks nothing, and disturbs no mapped byte, for direct slots, the indirect slot and its entries alike |
| FileBlocks.WordSetWord | Project1/fs.c:389-396 | storing one entry of the indirect block leaves the other entries as they were |
| FileBlocks.FileSystem.Readi | Project1/fs.c:452-476 | a read returns the corresponding part of the inode's flat byte string, short at its end, and -1 exactly past the end or when the sum wraps |
| FileBlocks.FileSystem.Writei | Project1/fs.c:481-511 | a write replaces the corresponding part of the byte string, extending it if need be, and changes no other file; every block, bitmap bit and inode that changes is logged; it panics only when the disk is full, and never for bytes the file has already |
| FileBlocks.FileSystem.Filewrite | Project1/file.c:117-157 | the chunked writes together are one write to the byte string, and the result is n or -1 exactly when it is not; then the whole chunks up to the first that the file cannot hold are written, and the file offset is after them |
| FileBlocks.WroteTwice | Project1/file.c:133-152 | two writes, the second where the first ended, are one write |
| FileBlocks.FileSystem.FilewriteRound | Project1/file.c:133-152 | a round writes the next chunk or stops where writei refuses; all that its transaction changes is logged, and with one bitmap block that makes at most MAXOPBLOCKS distinct blocks, the premise of the log's space invariant |
| FileBlocks.ChunkFits | Project1/file.c:127-133 | a transaction of one chunk logs at most four data blocks, the indirect block, the inode's block and the bitmap block, seven in all |
| FileBlocks.Image.TouchesFew | Project1/fs.c:372-400 | n blocks of one inode come with at most two more blocks, however many are allocated on the way |
| FileBlocks.FileSystem.Itrunc | Project1/fs.c:408-435 | exactly the blocks the inode owned become free, bfree's panic is never met, and no other file changes; all that changes is logged, which is bitmap blocks and the inode's block, so with one bitmap block at most two |
| FileBlocks.FileSystem.Bfree | Project1/fs.c:81-95 | panics exactly when the block is free already, and logs the bitmap block of a block it frees |
| FileBlocks.RecordedStep | Project1/log.c:214-233 | changes that are logged one after the other are logged together |
| FileBlocks.TruncatedOk | Project1/fs.c:408-435 | what remains after a truncation is a valid image with the other byte strings unchanged |
| FileBlocks.InProgressChunk | Project1/fs.c:493-505 | a round of writei's loop extends the written part and touches nothing else |
| Links.FileTree.Create | Project1/sysfile.c:241-283 | a name that is present is found if a file is to be made and it names one, and refused otherwise; for another the first free inode is made and entered in the first free place, without touching links in progress; nlink, names and parents fit the entries afterwards, and the directories are a tree, exactly when that directory was still linked; if not, a file's count is wrong, and a directory has no parent that lists it |
| Links.FileTree.LinkStart | Project1/sysfile.c:133-142 | a link is counted ahead of its entry, for anything but a directory |
| Links.FileTree.LinkFinish | Project1/sysfile.c:144-165 | the entry accounts for the link, or the failure path takes the count back; the invariant is kept exactly when the directory was still linked |
| Links.FileTree.Unlink | Project1/sysfile.c:184-239 | the entry and one link go, and for a directory the parent's link too; dots and directories that are not empty are refused; the panic on a count below one is never met |
| Links.FileTree.Dirlookup | Project1/fs.c:524-548 | finds the first entry in use of that name exactly when there is one |
| Links.FileTree.Dirlink | Project1/fs.c:551-578 | refuses a name that is present and otherwise fills the first empty entry, or adds one at the end |
| Links.FileTree.Isdirempty | Project1/sysfile.c:168-181 | true exactly when nothing but the first two entries is in use |
| Links.FileTree.Iput | Project1/fs.c:331-350 | freeing an inode without links leaves no entry that names it |
| Links.DirMade | Project1/sysfile.c:269-278 | a new directory's ".." is what its parent's extra link counts, and its own count is its entry in the parent |
| Links.DirUnlinked | Project1/sysfile.c:213-229 | removing an empty directory removes its ".." from its parent's references and leaves every other count right |
| Links.OnlyRef | Project1/sysfile.c:211-216 | an empty directory has exactly one link, from its parent |
| Links.LinkEntered | Project1/sysfile.c:147-151 | entering a counted link keeps counts, unique names and the tree |
| Links.DirInDead | Project1/sysfile.c:269-278 | making a directory in an unlinked one always leaves a linked directory that no directory lists |
| Links.FileInDead | Project1/sysfile.c:277 | a link entered in an unlinked directory leaves nlink one more than the entries and links in progress account for |
| Links.CreateInRemoved | Project1/sysfile.c:184-283 | mkdir, rmdir and creating a file in the removed directory is a run, from the file system that mkfs makes, after which the file has one link, no linked directory lists it, and no link is in progress |
| Links.AcyclicKept | Project1/sysfile.c:184-283 | every linked directory still reaches the root by ".." when no parent changes and only a directory without subdirectories is unlinked |
| Links.DirAcyclic | Project1/sysfile.c:269-278 | a new directory reaches the root, and so does every other, as before |
| Links.DirUnlinkedAcyclic | Project1/sysfile.c:213-229 | removing an empty directory cuts no other directory off from the root |
| Directories.DiskTree.Create | Project1/sysfile.c:241-283 | create on disk does what create in Links does, with the same result, or panics, for want of a free block or of room in the directory; files keep their bytes, all that changes is logged, in at most nine blocks with one bitmap block; the tree is a good one exactly when the directory was linked |
| Directories.DiskTree.Link | Project1/sysfile.c:127-166 | the link is counted and entered, on disk and in the table, or nothing has changed in the end; files keep their bytes, and at most five blocks are logged |
| Directories.DiskTree.Unlink | Project1/sysfile.c:184-239 | unlink on disk does what unlink in Links does and never runs out of room; files keep their bytes, at most five blocks are logged, and the tree stays a good one |
| Directories.DiskTree.Iput | Project1/fs.c:331-350 | an inode without links becomes free with all its blocks, every other keeps its bytes, the tree stays a good one, and at most two more blocks are logged |
| Directories.DiskTree.EnterDots | Project1/sysfile.c:267-275 | a new directory gets its two entries and its parent a link; dirlink refuses neither entry |
| Directories.Dirlink | Project1/fs.c:551-578 | refuses a name that is taken, and otherwise writes the first free entry or one at the end, and no other; it panics only at the end of a directory that cannot grow |
| Directories.WriteEntry | Project1/fs.c:572-575 | writei of an entry changes that entry of that directory alone, and logs at most two blocks of it besides the bitmap block and the inode |
| Directories.Dirlookup | Project1/fs.c:524-548 | finds the first entry in use of that name in the bytes of a directory exactly when there is one |
| Directories.Isdirempty | Project1/sysfile.c:168-181 | true exactly when nothing but the first two entries in the bytes is in use |
| Directories.DecodeEncode | Project1/fs.h:53-56 | an entry reads back from its 16 bytes, the name from its padded field, also when it fills all of it |
| Directories.EntriesOverwritten | Project1/fs.c:565-575 | writing the bytes of an entry over an entry or after the last changes that entry of the sequence and no other |
| Directories.TableEntered | Project1/fs.c:551-578 | an entry written to the blocks of a directory is that entry of its inode in the table, every inode else is as it was |
| Directories.TableMade | Project1/fs.c:194-218 | a free inode taken into use is an empty file or directory, and nothing else in the table changes |
| Directories.TableFreed | Project1/fs.c:331-350 | an inode that has been truncated and freed is a free one of the table, and nothing else changes |
| CrashSafety.RunTransactions | Project1/log.c:115-233 | for every run of operations one after the other and every crash point, once a boot gets through recovery the disk holds, block for block, the file system that the last committed operation made; link counts, names and parents fit its entries and its directories are a tree |
| CrashSafety.RunTransactionsInPeace | Project1/log.c:115-233 | without crashes, when nothing is running and no commit is due, the disk holds the file system that the last operation made |
| CrashSafety.KeptMake | Project1/log.c:178-202 | the writes that the log keeps of a sequence of operations make the file system of the last operation kept |
| CrashSafety.WritesMake | Project1/log.c:205-233 | the writes of one operation turn a disk that holds the file system before it into one that holds the file system after it: all that differs has been logged |
| CrashSafety.SameContent | Project1/fs.h:38-48 | an inode block, bitmap block or data block that was not logged holds what it held |
| CrashSafety.OnceEachWrites | Project1/log.c:178-190 | writing each logged block once, as a commit does, in any order, is such a sequence of writes |
| CrashSafety.WritesFew | Project1/log.c:205-233 | an operation writes to at most as many distinct blocks as it has logged, so that the bound of its operation is the budget of the log |
| CrashSafety.FileWritten | Project1/fs.c:481-511 | writing a file leaves the table of inodes and directories as it is |
| CrashSafety.HoldsOneTree | Project1/fs.h:8-56 | a disk holds one file system: the inodes, bitmap, directories and bytes of every file are determined by its home blocks |
| VirtualMemory.Vm.Walkpgdir | Project1/vm.c:35-55 | finds the entry's slot through both levels, and the directory's entry on the way allows the user everything; adding a table changes no directory's flat map, and on failure nothing changes |
| VirtualMemory.AccessByFlags | Project1/vm.c:45-55 | what both entries on the way to a page allow together is what the flags of its own entry say: the directory's restricts nothing |
| VirtualMemory.Vm.Mappages | Project1/vm.c:60-80 | maps the pages to consecutive frames, which may then be used as perm says, and leaves every other page of every directory as it was; fails if and only if the free list has fewer pages than there are page tables missing |
| VirtualMemory.Vm.Allocuvm | Project1/vm.c:221-249 | maps exactly the new pages, to zeroed pages that the user may read and write; below KERNBASE it fails if and only if the free list has fewer pages than the new pages and the missing page tables together; then every mapping is rolled back and every page but new tables is free again |
| VirtualMemory.Vm.Deallocuvm | Project1/vm.c:255-279 | exactly the user pages in range are unmapped and freed |
| VirtualMemory.NoTable | Project1/vm.c:267-268 | the skip to the next table passes over no mapped page |
| VirtualMemory.Vm.Freevm | Project1/vm.c:283-298 | the directory, its tables and its user pages go back to the free list, and nothing else |
| VirtualMemory.Vm.Setupkvm | Project1/vm.c:118-136 | a new directory holds exactly the kernel's mappings, on 65 pages, for the kernel alone, which may not write its text; if and only if there are fewer it fails, and every page is with its owner from before |
| VirtualMemory.Kmap | Project1/vm.c:105-115 | the four rows of kmap are in order, apart, and together the kernel's flat map |
| VirtualMemory.Vm.Copyuvm | Project1/vm.c:315-345 | the child's pages below sz hold what the parent's do and may be used as those, on pages of its own, and everything in use before is untouched; if and only if the free list is too short for the directory, the pages and their tables it fails, and every page is back with its owner |
| VirtualMemory.SpacesDisjoint | Project1/vm.c:332-339 | no two mapped user pages share a frame, and no user page is a page table |
| VirtualMemory.StoreIsPrivate | Project1/vm.c:315-345 | a store through one address space changes no flat map and no page of any other |
| VirtualMemory.CopyThenFree | Project1/vm.c:283-345 | copying and then freeing the copy restores the ownership of every page |
| VirtualMemory.NewTable | Project1/vm.c:45-53 | a zeroed page under a new directory entry maps nothing, whatever else is mapped |
| VirtualMemory.Mapped | Project1/vm.c:71-73 | writing one entry maps one page and keeps ownership exact |
| VirtualMemory.Unmapped | Project1/vm.c:269-275 | clearing one entry releases the one page it named |
| VirtualMemory.GrowsBack | Project1/vm.c:235-246 | deallocuvm undoes what allocuvm has mapped so far and nothing else |
| VirtualMemory.TakesMore | Project1/vm.c:35-80 | the pages used by two steps add up, a table that the first has made not being counted again |
| VirtualMemory.TakesRefused | Project1/vm.c:35-80 | if a later step runs out of pages there were too few for the whole from the start |
| VirtualMemory.Vm.Kalloc | Project1/kalloc.c:82-95 | takes the first page of the free list, or none when that is empty |
| VirtualMemory.Vm.Kfree | Project1/kalloc.c:59-77 | the page, filled with junk, is the first of the free list and every other page unchanged |
| VirtualMemory.Vm.Freerange | Project1/kalloc.c:46-53 | exactly the pages of the range become free |
| VirtualMemory.Pushed | Project1/kalloc.c:70-74 | a push keeps the list linked through the free pages, each once |
| KrAllocator.Allocator.Malloc | Project1/umalloc.c:63-90 | for every request, a new block of the size asked for, apart from all live ones; morecore is called once if no free block is large enough and otherwise not at all; the search terminates; exactly the requests from 0x7FFF_FFF1 to 0xFFFF_FFF8 bytes that no free block satisfies make sbrk take a number that is not positive; it returns 0 exactly where morecore is called and sbrk fails or may not be called, and then the break has not moved; without morecore it takes the end of the first block that is large enough after freep |
| KrAllocator.Allocator.Free | Project1/umalloc.c:24-44 | the block joins the ring in its place and is merged with its neighbours; the search terminates |
| KrAllocator.Allocator.Morecore | Project1/umalloc.c:46-61 | if sbrk gives memory, which is for at least 4096 units, it is on the free list and freep is returned; it returns 0 exactly where sbrk fails or may not be called, and then nothing has changed; each call is counted |
| KrAllocator.Allocator.Search | Project1/umalloc.c:74-89 | a round of the ring finds the first block after freep that is large enough, exactly when there is one |
| KrAllocator.Allocator.FindGap | Project1/umalloc.c:28-32 | the loop stops at the one entry whose gap holds the block |
| KrAllocator.FreedOk | Project1/umalloc.c:33-42 | insertion with both merges keeps the list in address order with no blocks touching and adds exactly the block's units |
| KrAllocator.TakenOk | Project1/umalloc.c:75-82 | taking a whole block or its tail keeps the list in order and removes exactly the units handed out |
| KrAllocator.LiveAfterFree | Project1/umalloc.c:24-44 | free and live units together remain the units obtained from sbrk, and apart |
| KrAllocator.LiveAfterTake | Project1/umalloc.c:75-84 | likewise when units are handed out |
| KrAllocator.ArenaGrows | Project1/umalloc.c:54-59 | likewise when sbrk gives more |
| KrAllocator.JoinNextLinked | Project1/umalloc.c:33-37 | the pointer writes of the first merge are the merge on the list |
| KrAllocator.NUnitsCoversRequest | Project1/umalloc.c:69 | the rounded size covers the request if and only if the 32-bit sum does not wrap |
| KrAllocator.SbrkAsksEnough | Project1/umalloc.c:52-54 | sbrk is asked for the memory that is then used if and only if the request is of at most 0x7FFF_FFF0 bytes or wraps around; for all others its signed argument is zero or negative |
| Shell.RoundTrip | Project1/sh.c:327-446 | parsing the parenthesised printing of any command tree gives back the tree |
| Shell.ImageOfParser | Project1/sh.c:327-446 | the printable trees, with fewer than MAXARGS words to a command, are exactly those that some line parses to |
| ShellGrammar.ParserIsGrammar | Project1/sh.c:265-446 | a line is accepted, with a given tree, if and only if it is spelled as some line of the language that means the tree: words and redirections in any order, ">>" as ">", pipes and lists to the right, ampersands and blocks |
| ShellGrammar.LexSpelled | Project1/sh.c:265-308 | the scanner finds the lexemes that a line spells, words as long as they can be and ">>" before ">", whatever the white space between them |
| ShellGrammar.LexSpells | Project1/sh.c:265-308 | every line spells what the scanner finds in it |
| ShellGrammar.LineRead | Project1/sh.c:344-446 | wherever the lexemes of a line of the language stand, up to an end or a closing parenthesis, parseline reads them and returns the tree that they mean |
| ShellGrammar.LineDerived | Project1/sh.c:344-446 | whatever parseline accepts is a line of the language that means the tree it returns |
| ShellGrammar.OneMeaning | Project1/sh.c:327-446 | no line means two trees |
| Shell.PrintedReadsBack | Project1/sh.c:327-493 | after the NULs are written, the tree read as C strings is the tree that was printed |
| Shell.Parser.Parsecmd | Project1/sh.c:327-342 | parses or panics as specified, terminates on every line, and after a successful parse every argv and file pointer reads back as its token |
| Shell.Parser.Nulterminate | Project1/sh.c:449-493 | NULs are written exactly where words end |
| Shell.ReadsBack | Project1/sh.c:449-493 | no NUL falls inside a word of any command in the tree |
| Shell.EndsOutsideWords | Project1/sh.c:265-308 | a position that nulterminate writes holds a delimiter or the end of the line |
| Shell.Parser.Gettoken | Project1/sh.c:265-308 | the token and the cursor are those of the specification |
| Shell.Parser.Peek | Project1/sh.c:310-320 | likewise for the next character |
| Shell.Parser.Parseline | Project1/sh.c:344-359 | likewise for lists and background commands, by a measure on the characters left |
| Shell.Parser.Parsepipe | Project1/sh.c:361-372 | likewise for pipes |
| Shell.Parser.Parseredirs | Project1/sh.c:374-397 | likewise for redirections, with the panic for a missing file |
| Shell.Parser.Parseblock | Project1/sh.c:399-413 | likewise for blocks, with the panic for a missing parenthesis |
| Shell.Parser.Parseexec | Project1/sh.c:415-446 | likewise for simple commands |
| Shell.Parser.ParseWords | Project1/sh.c:429-442 | likewise for the words of a command, with the panics for syntax and too many arguments |
| Shell.LineSound | Project1/sh.c:344-359 | every word of a parsed line is a maximal stretch of ordinary characters, and no command has MAXARGS of them |
| Shell.LineFound | Project1/sh.c:327-446 | the round trip holds wherever in a line the printed tree stands, up to an end or a closing parenthesis |
| Scheduler.Ptable.Allocproc | Project2/proc.c:93-145 | a new process in the first unused slot is queued once, at the rear of QL0; without a stack the slot only has its pid; placement and order are kept on every path |
| Scheduler.Ptable.Fork | Project2/proc.c:209-252 | the child in the first unused slot is queued and runnable; placement survives if and only if the failing copy is not reached, which leaves the unused slot at the rear of QL0 |
| Scheduler.Ptable.Wait | Project2/proc.c:302-395 | the first zombie child is reaped and leaves its queue, or there is none and wait reports it or sleeps |
| Scheduler.Ptable.FirstUnused | Project2/proc.c:331-342 | the first unused entry of the queue is the process just reaped |
| Scheduler.Ptable.RemovePCB | Project2/proc.c:525-537 | the search by pid finds the process, and the rest of the queue keeps its order; for an unused slot it stops at a pointer left behind past the entries, if it comes to one with that pid, and drops the last entry; in all other cases, and when the queue holds the whole table, it runs into a null pointer or past the array |
| Scheduler.Ptable.Yield | Project2/proc.c:540-609 | a process leaves its queue only when its time is used up, for the rear of QL1 or QL2 with 4 or 6 ticks, or its place in QL3 with 8; a process of QL3 comes down by one in priority, but not below zero; placement and the order of QL3 are kept, unless the whole table is at the level it leaves |
| Scheduler.Ptable.FindPlace | Project2/proc.c:589-593 | the place in QL3 is after every entry of at least the same priority |
| Scheduler.Ptable.Boost | Project2/proc.c:753-784 | every hundred ticks QL0 receives the other levels in order and they are emptied; nobody is lost or duplicated |
| Scheduler.Ptable.Setpriority | Project2/proc.c:795-806 | QL3 stays sorted if and only if the new priority fits between the neighbours |
| Scheduler.Ptable.Setmonopoly | Project2/proc.c:841-874 | all return codes, and the move of an allocated process to the rear of moq; for the pid of an unused slot, exactly when it queues the unused slot, when that costs another queue its last process, and when it runs into a null pointer or past the array |
| Scheduler.Ptable.Dispatch | Project2/proc.c:464-496 | the process dispatched is runnable, no higher level has a runnable one, and within QL3 none has a greater priority; in MoQ mode it is the first runnable one of moq |
| Scheduler.Ptable.FirstRunnable | Project2/proc.c:399-438 | finds the first runnable process of a queue exactly when there is one |
| Scheduler.QueuesBound | Project2/proc.c:135-142 | the queue lengths add up to at most NPROC, so no queue overflows |
| Scheduler.FullQueue | Project2/proc.c:525-537 | a queue fills its array if and only if every slot of the process table holds a process of that level |
| Scheduler.MonopolyLosesProcess | Project2/proc.c:841-874 | after fork, exit and wait of a single child, setmonopoly for the pid 0 leaves the runnable parent in no queue |
| Scheduler.OnlyChildReaped | Project2/proc.c:331-342 | wait leaves the pointer to the reaped child in the array, past the entries |
| Scheduler.DispatchedIsBest | Project2/proc.c:476-490 | the first runnable process of the first queue that has one is the best one |
| Scheduler.SortedIffFits | Project2/proc.c:795-806 | the exact condition for a changed priority to leave a sorted queue sorted |
| Scheduler.PlacedWithout | Project2/proc.c:525-537 | taking an entry out of its queue leaves every other process where it belongs, once |
| Scheduler.PlacedInserted | Project2/proc.c:594-598 | putting it in where its level says restores the placement of all |
| Scheduler.MovingStep | Project2/proc.c:760-765 | a round of boost's loop keeps everyone in exactly one queue |
| BufferCache.Cache.Bget | Project1/bio.c:58-93 | returns the block's buffer, or recycles the least recently used one that is neither in use nor dirty; no block's latest contents are lost; the panic is taken only when there is none |
| BufferCache.Cache.Bread | Project1/bio.c:95-106 | the buffer has the block as it was last written, in whatever buffer or on disk |
| BufferCache.Cache.Bwrite | Project1/bio.c:108-116 | the disk has the buffer's contents and no other block changes |
| BufferCache.Cache.Brelse | Project1/bio.c:118-141 | the last release moves the buffer to the front of the ring, which stays one doubly linked cycle through every buffer |
| BufferCache.Cache.Iderw | Project1/memide.c:38-60 | a dirty buffer is written and an invalid one read |
| BufferCache.Unlinked | Project1/bio.c:132-133 | the two pointer writes take one node out of the cycle |
| BufferCache.Linked | Project1/bio.c:134-137 | the four pointer writes put one in after the head |
| BufferCache.Recycled | Project1/bio.c:81-91 | what a recycled buffer held is on disk, so the latest contents of every block stay the same |
| BufferCache.CommitObtains | Project1/bio.c:81-92 | while the blocks of a group are pinned, and whatever buffers others hold, bget finds a buffer for a block exactly when it is cached, or the group and the held buffers are fewer than NBUF together |
| Pipe.RunPipe | Project1/pipe.c:77-121 | for every interleaving of readers, writers, closes and kills the ring in memory goes through the states of the queue; the bytes delivered are those the run takes out, a prefix of those it puts in; no wakeup is lost unless a killed writer has filled the pipe beside a sleeping reader |
| Pipe.FirstInFirstOut | Project1/pipe.c:77-121 | in every run what comes out is a prefix of what goes in, in order, and the rest is in the pipe |
| Pipe.NoLostWakeup | Project1/pipe.c:77-121 | in every run, at every point readers sleep only on an empty pipe, if and only if no killed writer ever fills the pipe beside a sleeping reader with bytes left over |
| Pipe.WriteEffect | Project1/pipe.c:77-99 | in every run a writer that runs puts in as much as fits, is through if that is all, and otherwise sleeps or gives up; it wakes the readers unless it gives up |
| Pipe.ReadEffect | Project1/pipe.c:101-121 | in every run a reader that runs takes the bytes it wants as far as there are any and wakes the writers, or sleeps or gives up on an empty pipe that is open for writing |
| Pipe.CloseEffect | Project1/pipe.c:58-75 | in every run closing an end closes it alone and wakes all who sleep on the other |
| Pipe.KillEffect | Project1/proc.c:479-497 | in every run a killed process does not stay asleep |
| Pipe.StartEffect | Project1/pipe.c:77-105 | in every run a call on an open end begins with its process runnable |
| Pipe.Queue.AwakeStep | Project1/pipe.c:85-97 | the one event that loses a wakeup, as a condition on the state before it: a killed writer, a sleeping reader, and more bytes to write than there is room |
| Pipe.Queue.InvStep | Project1/pipe.c:77-121 | every event keeps the pipe within PIPESIZE and writers asleep only on a full pipe with a reader, and puts in and takes out the bytes stated |
| Pipe.Queue.NeverBothAsleep | Project1/pipe.c:77-121 | while no wakeup is lost, no reader sleeps beside a sleeping writer |
| Pipe.Pipe.Perform | Project1/pipe.c:59-121 | each event on the ring in memory is the step of the queue, and returns the bytes that it takes out |
| Pipe.Pipe.Drain | Project1/pipe.c:113-117 | the loop of piperead takes out the oldest bytes, as many as are wanted or there |
| Pipe.Pipe.Pipewrite | Project1/pipe.c:77-98 | bytes go in until the pipe is full; the call returns, sleeps or fails exactly as the ends and the kill flag say, and a sleeper has reason to sleep |
| Pipe.Pipe.Piperead | Project1/pipe.c:100-121 | bytes come out in order until enough or none are left; a reader sleeps only on an empty pipe with a writer |
| Pipe.Pipe.Pipeclose | Project1/pipe.c:59-75 | whoever waits for the closed end is woken |
| Pipe.Pipe.Wakeup | Project1/proc.c:457-465 | exactly the sleepers on the channel become runnable |
| Pipe.Pipe.Kill | Project1/proc.c:479-497 | a killed sleeper becomes runnable and no wakeup is lost |
| Pipe.FullTest | Project1/pipe.c:85 | the comparison of wrapped counters is the test for a full pipe |
| Pipe.EmptyTest | Project1/pipe.c:106 | and the other for an empty one |
| Pipe.LostWakeup | Project1/pipe.c:86-89 | a concrete run in which a killed writer fills the pipe and leaves a reader asleep beside it |
| Grep.Match | Project1/grep.c:72-82 | true exactly when some part of the text is a word of the pattern, at the ends where it is anchored |
| Grep.MatchHere | Project1/grep.c:84-96 | true exactly when the text starts with a word of the pattern; terminates, lexicographically on pattern and text |
| Grep.MatchStar | Project1/grep.c:98-106 | likewise for the pattern after a starred character |
| Grep.OneIsPrefix | Project1/grep.c:92-94 | an item without a star takes exactly one character that fits it |
| Grep.StarUnfolds | Project1/grep.c:98-106 | a starred item takes nothing, or one character and more of the same |

## Left out

- Device, boot, interrupt and context-switch code, system call argument fetching, and user programs other than the shell, grep and the two lock programs: no algorithm to verify, or foreign instructions.
- Spin-locks and sleep-locks: each critical section of the kernel is one step; the pthread lock is the one lock whose own steps are modelled.
- Path resolution (`namex`, `skipelem`): `Links` starts from the parent directory and the last name. A single device, so the cross-device refusal of `sys_link` is not modelled.
- Copy-on-write of Project4, the threads of Project3_LWP, and the atomic-instruction lock: not modelled.
- RedoLog.Log.LogWrite: the journal records the write when log_write is called, so a block changed in its buffer afterwards and not logged again is not modelled.
- FilterLockFairness.StarvationFree: that a thread which has begun lock and not finished unlock is scheduled again is a premise, as it is of any lock; of threads outside the lock nothing is assumed.
- FilterLock.MutualExclusion: under sequential consistency; the source has no fences, so what weaker memory does is not modelled. Threads get their index directly.
- FileBlocks.FileSystem.Readi: device inodes are not modelled; bitmap bits are booleans, and copies between the inode cache and the disk (iupdate) and buffers are transparent.
- FileBlocks.ChunkFits: counts blocks when one bitmap block covers the disk, as it does in mkfs; the counts of `Directories` do too.
- FileBlocks.FileSystem.Filewrite: `src` is a sequence, so a negative n, for which the source skips the loop and returns n, is not modelled.
- Directories.DiskTree.Create: one system call at a time, where in the source calls on different inodes interleave; the interleaving of the two halves of link is in `Links`. Major and minor numbers are not modelled, there are at most 65536 inodes, and the iput of the other inodes that path resolution goes through is not counted.
- CrashSafety.RunTransactions: the operations of a run log their blocks one operation after the other; interleaved, each is still there whole or not at all (`RedoLog.WholeOperations`). How the contents of a block are put into its bytes is left open.
- Links.FileTree.Create: a directory's contents are a sequence of entries and writing one never fails for want of space, which is for `Directories` to say; nlink does not overflow a short; names are at most DIRSIZ characters already.
- VirtualMemory.Vm.Copyuvm: pages are sequences of 32-bit words; sizes are below the address space limit, as its callers ensure; the pages of the kernel's mappings are not owned. The panics for an unmapped page and for a remap are preconditions.
- VirtualMemory.Vm.Deallocuvm: frees a page after clearing its entry, where the source does so before; nothing can look between.
- loaduvm, inituvm, clearpteu and copyout: single-page accesses over the same tables.
- KrAllocator.Allocator.Malloc: what sbrk answers is the parameter `gap`; addresses count header-sized units; where morecore passes sbrk a number that is not positive (`overrun`), the writes past the break that follow in the source are not modelled.
- Shell.Parser.ParseWords: a command's node is a value that is rebuilt as words are added under the redirections read so far, where the source writes through a pointer; malloc of nodes never fails.
- ShellGrammar.ParserIsGrammar: says which lines are refused, not with which message; `Shell.Parser.Parsecmd` does.
- Executing commands (runcmd) is not modelled.
- Scheduler.Ptable.RemovePCB: what the source reads through a null pointer, and what it reads and writes past the array, is not modelled; `ok` is false there. It is false also where the row has no entry, for which the source makes the rear negative and goes on.
- RedoLog.CommitOnRuns: which buffers others hold is a parameter; the buffers themselves and the log's own copy of their contents are related by what is pinned, not by what they contain.
- Scheduler.Ptable.Boost: empties each row right after its loop, where the source empties all three at the end, under the same lock.
- Scheduler.Ptable.Allocproc: queues the new process in one step, although the source drops the lock in between; exit, sleep and wakeup only change states, as SetState does.
- The exit rule of the monopoly queue (checkMoQ, unmonopolize) and the switch of modes: no stated intent.
- BufferCache.Cache.Brelse: that a holder which has changed a buffer has written it or marked it dirty before the last release is a premise.
- Pipe.RunPipe: an end of a pipe closes only when no process is in a call on it.
- grep's line buffer: only the matcher is modelled.
