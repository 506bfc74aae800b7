# Proofs about xv6

A Dafny model of the parts of this xv6 kernel and its user programs that are hard to get right: the
crash-recovery log, the buffer cache, files and block allocation, the multi-level feedback scheduler,
semaphores, pipes, page tables, the allocator, the shell's parser and grep's matcher.
`dafny verify dfyconfig.toml` checks all of it.

Each part comes in the same two layers. A specification layer describes state as values and proves the
properties: invariants of every step, safety of every run, round trips, refinements. A code layer holds
the loops and assignments of the C code as methods of a class, and proves each equal to the
specification. Concurrency is a state machine: one event is one critical section, and theorems speak
about every finite run of any number of processes.

| part | specification | code |
|---|---|---|
| log (`log.c`) | `Blocks`, `Log`, `LogProtocol`, `LogHeader`, `LogLimits`, `LogDurable` | `LogCode` |
| buffer cache (`bio.c`) | `CacheProtocol`, `CacheCommit` | `BufferCache` |
| files (`fs.c`, `file.c`) | `FsLayout`, `FsState`, `FsFiles`, `FsWrite`, `FsOverwrite`, `FsTrunc`, `FsFormat`, `FsCrash` | `FsCode` |
| scheduler (`proc.c`) | `Sched`, `Aging`, `LifeCycle`, `Pids`, `Waiting`, `Priorities` | `SchedCode` |
| semaphores (`semaphore.c`) | `Semaphores`, `SemCounts` | `SemCode` |
| pipes (`pipe.c`) | `PipeModel`, `PipeBytes` | `PipeCode`, `PipeCalls` |
| page tables and pages (`vm.c`, `kalloc.c`) | `PageTables` | `VmCode` |
| allocator (`user/umalloc.c`) | `Heap` | `HeapCode` |
| shell parser (`user/sh.c`) | `Shell`, `ShellTokens`, `ShellGrammar`, `ShellAccepts`, `ShellPrint` | `ShellCode` |
| grep (`user/grep.c`) | `Grep` | `Grep` |

## The main results

- Crash safety: stop the machine anywhere, let recovery be interrupted any number of times; the disk
  then holds exactly the committed transactions, complete and in order (`LogProtocol.CrashAnywhere`).
  This holds if and only if the operations that `begin_op` admits at once fit into the log, or never
  overlap, or log nothing (`LogLimits.CrashSafetyExact`). With operations of up to MAXOPBLOCKS calls it
  takes LOGSIZE blocks behind the header as soon as two processes share the log; the log that
  `mkfs.c:17` makes has LOGSIZE - 1, and is safe for one process only (`LogLimits.ShippedLog`).
- What a committed transaction wrote stays through all later crashes, until a later one overwrites it
  (`LogDurable.Durability`).
- For a log of any size, no operation is split between two transactions
  (`LogProtocol.OperationsAreAtomic`), commits run alone and header and reservations stay within what
  `begin_op` admits (`LogProtocol.GroupCommit`), no `log_write` is lost
  (`LogProtocol.WritesConserved`), and the header names each sector of the open transaction once and no
  other (`LogHeader.HeaderIsLogged`).
- The cache is invisible: a held buffer always shows the last value stored in its sector
  (`CacheProtocol.BreadReturnsLatest`).
- `readi`, `writei`, `filewrite` and `itrunc` act on byte sequences: the contents of a file are
  spliced, cut or dropped, every other file stays, every block is accounted for in the bitmap exactly
  once, and a chunk of `filewrite` on an empty log never trips the guard of `log_write`
  (`FsCode.FileSystem.WriteTransaction`). Cut by a crash anywhere, it leaves the old contents or the new
  ones, and a file system in order (`FsCrash.CrashDuringWrite`).
- The feedback queues hold exactly the RUNNABLE processes, once each, and aging bounds waiting
  (`Aging.BoundedWaiting`); no process is left asleep in `wait` while it has a zombie child
  (`Waiting.NoLostExit`); different processes have different pids (`Pids.PidsDiffer`).
- The value of a semaphore is its initvalue plus the `semup`s minus the `semdown`s that got through, counted
  over the events of the run (`SemCounts.ValueCounts`); no wakeup is lost (`Semaphores.NoLostWakeup`).
- What readers of a pipe get, followed by what is in it, is what writers passed, call by call and in order
  (`PipeBytes.EndToEnd`, `PipeBytes.WritersProgress`); without kills no wakeup is lost either.
- `copyuvm` makes an equal copy on disjoint frames and `freevm` gives back exactly what it took. Out of
  memory, `copyuvm` gives back all but at most one frame, unless `setupkvm` has failed, which frees none.
- The allocator's free and live blocks tile the heap; its loops end; it grows at most once per call.
- The shell's parser accepts exactly the lines of a grammar of lists of backgrounded pipelines of simple
  commands and blocks, and builds what they mean (`ShellAccepts.Grammar`). Every command tree, printed with
  the fewest parentheses and any white space, is parsed to itself (`ShellPrint.RoundTrip`,
  `ShellPrint.FewestBlocks`).
- grep's matcher decides the language of its patterns, and every string is read as the one pattern it is the
  writing of (`Grep.MatchHere`, `Grep.ShowParse`).

## Where the code does not do what one would expect

Each of these is stated with the exact condition under which it does.

- Some run of `log_write` panics, for `room` blocks behind the log header, `procs` processes and `limit`
  calls per operation, if and only if the operations `begin_op` admits at once may make more calls than
  the smaller of `room` and LOGSIZE (`LogLimits.NoPanicExact`): `limit` for one process,
  MAXOPBLOCKS + 2 * `limit` for two.
- `log_write` tests its guard before it takes the lock, so two operations can both pass it at the last
  free entry. A header with one entry more than the log has blocks then reaches the disk, without a
  panic (`LogLimits.TornHeader`), if sector writes behind the end of the disk do nothing; `memide.c:47`
  panics on those, `ide.c` has no such test.
- `begin_op` reserves MAXOPBLOCKS per operation. A chunk of `filewrite` logs up to LOGSIZE sectors
  (`FsWrite.ChunkBound`); within a file it logs the blocks it writes, which are more than MAXOPBLOCKS
  exactly if it runs over the end of the tenth (`FsCode.FileSystem.WriteTransaction`,
  `FsCode.LargeChunk`). Operations of that size never panic exactly if one process uses the log alone
  and it has LOGSIZE blocks (`LogLimits.LargeOperations`).
- `bget` panics exactly if the sector is not cached and every buffer is busy or dirty
  (`CacheProtocol.BgetPanicsExact`). NBUF is LOGSIZE, so a commit of LOGSIZE sectors panics at its first
  `bread`, when nobody else holds a buffer (`CacheProtocol.CommitPanicsExact`,
  `CacheProtocol.CommitPanics`), and a smaller one does not panic at all (`CacheCommit.WholeCommit`).
- `mkfs` marks the blocks in use, not the log (`mkfs.c:155`), so its image is not a state that
  `FsState.Accounted` describes (`FsFormat.MkfsNotAccounted`); `FsFormat.Formatted` is one. On the bitmap
  of `mkfs` the kernel's `balloc` hands out the log header's block exactly when all data blocks are taken
  (`FsFormat.LogBlockExact`, `FsFormat.MkfsReachesLog`). It also rounds the size of the root directory up
  by a whole block when the entries fill their blocks exactly, which leaves a hole
  (`FsFormat.MkfsRootHole`).
- A killed writer that still has more than PIPESIZE bytes to write can fill the pipe and leave without
  waking a sleeping reader (`PipeModel.FairExact`, `PipeModel.KilledWriterStrandsReader`).
- `deallocuvm` steps 4 MB on where there is no page table without going to a 4 MB boundary, and so can
  pass over mapped pages (`VmCode.VisitsExact`, `VmCode.PassedOver`); `freevm`, which starts at 0, does
  not.
- `setpriority` stores its argument in 16 bits and touches no queue. The next `make_runnable` of the
  process is within the queues, and the invariant holds again, exactly for values below MLFLEVELS if it
  is `yield` or `kill`, and up to MLFLEVELS if it is `wakeup1`, which takes one off first
  (`Priorities.YieldExact`, `Priorities.KillExact`, `Priorities.WakeupExact`).
- `malloc` of more than 2^32 - 8 bytes returns a block of one unit (`HeapCode.UnitsSuffice`). From
  2^31 - 15 bytes on `morecore` asks `sbrk` for a negative number, or 0 (`HeapCode.RequestExact`).
- `semget` answers -5, which its comment does not mention, for an id that was never created, and -4
  also for MAXSEM itself, where the comment says greater than MAXSEM (`Semaphores.GetResults`).
- `kill` marks the first slot with the pid, whether a process uses it or not: `kill(0)` marks an UNUSED slot,
  and so does the pid of a fork that failed. `allocproc` does not clear the mark, so the next process in that
  slot is born killed (`Pids.BornKilled`, `Pids.KillZero`).
- In the shell `>>` builds the same command as `>`, wherever it stands (`ShellPrint.AppendIsOutput`).

## Model

| member | source | states |
|---|---|---|
| `Blocks.WordsOfPutWords` | xv6-unrc/log.c:101-113 | words stored one after another in a block are read back from it |
| `Log.HeaderOfPutWords` | xv6-unrc/log.c:85-113 | a header written by write_head is the header read_head reads: n and all sector numbers |
| `Log.InstallPrefix` | xv6-unrc/log.c:68-82 | copying any number of the logged blocks of a committed log home leaves what the disk stands for unchanged, and the log usable |
| `Log.RecoveryStep` | xv6-unrc/log.c:115-122 | the states named AfterRecovery are exactly those that single sector writes of recover_from_log lead through |
| `Log.RecoveryPrefix` | xv6-unrc/log.c:115-122 | recovery cut after any number of writes leaves a disk that stands for the same home blocks; complete, it has them in place and an empty log |
| `Log.RecoveryRestores` | xv6-unrc/log.c:115-122 | however often recovery is cut short and started again, the one that completes restores the same home blocks |
| `Log.CommitStep` | xv6-unrc/log.c:175-200 | the states named AfterCommit are exactly those that single sector writes of commit lead through |
| `Log.HeaderCommits` | xv6-unrc/log.c:98-113 | once the header is on disk, the disk stands for the blocks in the cache |
| `Log.CommitPrefix` | xv6-unrc/log.c:190-200 | commit cut after any number of writes leaves a disk that stands for all of the transaction or none of it, and the header write is the point where it changes |
| `Log.CrashAtomicity` | xv6-unrc/log.c:115-122 | commit cut anywhere, then any number of interrupted recoveries, then a complete one: all of the transaction or none of it |
| `LogCode.LogArea.constructor` | xv6-unrc/log.c:53-66 | a log area on a device, nothing logged |
| `LogCode.LogArea.Bwrite` | xv6-unrc/log.c:76-77 | one sector goes to the device and to the cache, and a crash state is recorded for it |
| `LogCode.LogArea.InstallTrans` | xv6-unrc/log.c:68-82 | the loop copies log blocks to their home sectors in header order, through exactly the intermediate disks the crash lemmas speak of |
| `LogCode.LogArea.ReadHead` | xv6-unrc/log.c:84-96 | the in-memory header becomes the one on disk |
| `LogCode.LogArea.WriteHead` | xv6-unrc/log.c:98-113 | the header block gets n and the sectors, nothing else changes |
| `LogCode.LogArea.RecoverFromLog` | xv6-unrc/log.c:115-122 | the disk ends with the home blocks it stood for and an empty log, passing through exactly the states of Log.RecoveryPrefix |
| `LogCode.LogArea.WriteLog` | xv6-unrc/log.c:174-188 | cached blocks are copied to the log in header order |
| `LogCode.LogArea.LogWrite` | xv6-unrc/log.c:211-231 | panics exactly for a full header, a full log area or no outstanding operation; otherwise the set of sectors in the header grows by this one, and each stays in it once; keeps what the next commit relies on |
| `LogCode.LogArea.Commit` | xv6-unrc/log.c:190-200 | device and cache end equal with an empty log, passing through exactly the states of Log.CrashAtomicity |
| `LogProtocol.Admitted` | xv6-unrc/log.c:125-141 | what begin_op has admitted, with what is in the header, is at most the demand: one operation alone, two while the header has at most MAXOPBLOCKS entries, three while it is empty |
| `LogProtocol.BeginAlways` | xv6-unrc/log.c:125-141 | begin_op reserves MAXOPBLOCKS or sleeps; what always holds is kept |
| `LogProtocol.PutAlways` | xv6-unrc/log.c:221-230 | log_write under the lock finds no commit running, and keeps what always holds |
| `LogProtocol.EndAlways` | xv6-unrc/log.c:145-162 | end_op starts a commit exactly when the last operation ends, and never finds one running |
| `LogProtocol.CheckRoom` | xv6-unrc/log.c:216-219 | a call that passes the guard of log_write, tested before the lock is taken, finds room, if the system is crash safe |
| `LogProtocol.PutRoom` | xv6-unrc/log.c:221-230 | the header stays within the log for every call that has passed the guard |
| `LogProtocol.PutKeeps` | xv6-unrc/log.c:221-230 | log_write keeps the room, the link between cache and log, and the history |
| `LogProtocol.EndData` | xv6-unrc/log.c:145-162 | the last end_op leaves disk, cache and header in a state a commit can start from |
| `LogProtocol.CommitStepData` | xv6-unrc/log.c:190-200 | each sector write of a commit leads to the next of the states the crash lemmas speak of |
| `LogProtocol.CommitStepHistory` | xv6-unrc/log.c:190-200 | the header write, and no other, makes the transaction durable |
| `LogProtocol.CommitDoneData` | xv6-unrc/log.c:164-171 | after the commit the disk is the cache, and the next transaction starts empty |
| `LogProtocol.CrashData` | xv6-unrc/log.c:53-66 | a crash at any moment leaves a disk recovery can start from |
| `LogProtocol.RecoverStepData` | xv6-unrc/log.c:115-122 | each sector write of recovery keeps what the disk stands for, also when the machine crashes again |
| `LogProtocol.ReachableAlways` | xv6-unrc/log.c:125-231 | what always holds does so in every reachable state, for a log of any size and any number of processes, interleavings and crashes |
| `LogProtocol.ReachableInv` | xv6-unrc/log.c:125-231 | in crash-safe systems the whole invariant holds in every reachable state |
| `LogProtocol.GroupCommit` | xv6-unrc/log.c:125-172 | for a log of any size: commits run alone, no log_write and no end_op falls into one, the header keeps to the demand, and whoever sleeps in begin_op does so during a commit or because the reservations do not fit, and will be woken by a commit or an end_op to come |
| `LogProtocol.ReservationSuffices` | xv6-unrc/log.c:125-141 | operations that keep to MAXOPBLOCKS calls never overrun the in-memory header, whatever the size of the log |
| `LogProtocol.CrashAnywhere` | xv6-unrc/log.c:115-122 | in crash-safe systems, stop anywhere and reboot: the home blocks are those of the durable transactions, complete and in order |
| `LogProtocol.OperationsAreAtomic` | xv6-unrc/log.c:125-172 | no operation has writes in two transactions, for a log of any size |
| `LogProtocol.WritesConserved` | xv6-unrc/log.c:211-231 | the transactions strung together are exactly the log_writes made, in order |
| `LogLimits.NoPanicExact` | xv6-unrc/log.c:125-231 | no run of log_write and end_op panics if and only if no operation logs, or what begin_op admits at once fits into the smaller of LOGSIZE and the log |
| `LogLimits.GuardExact` | xv6-unrc/log.c:211-219 | with MAXOPBLOCKS calls per operation and at least two processes: no panic is reachable if and only if the log has LOGSIZE blocks behind its header |
| `LogLimits.LargeOperations` | xv6-unrc/log.c:125-231 | with LOGSIZE calls per operation, as many as a chunk of filewrite may make: no panic is reachable if and only if at most one process uses the log, and it has LOGSIZE blocks |
| `LogLimits.NearlyFull` | xv6-unrc/log.c:125-231 | a run that leaves one free entry and two operations that may both take it |
| `LogLimits.Overrun` | xv6-unrc/log.c:216-230 | from there both pass the guard, and the header has one entry too many |
| `LogLimits.TornHeader` | xv6-unrc/log.c:174-200 | on a smaller log a commit then writes a header with more entries than the log has blocks, and nothing panics |
| `LogLimits.CrashSafetyExact` | xv6-unrc/log.c:115-231 | header and disk are sound in every reachable state if and only if nothing is logged, at most one process uses the log, no call passes the guard, or what begin_op admits at once fits |
| `LogDurable.Durability` | xv6-unrc/log.c:115-200 | a transaction that is durable at one point of a run is so at every later one, and a crash there, with any interrupted recoveries, leaves in each sector what it wrote last, unless a later durable transaction wrote that sector |
| `LogDurable.CommitIsDurable` | xv6-unrc/log.c:190-200 | the header write of a commit makes the writes of all operations since the last commit one durable transaction |
| `LogLimits.ShippedLog` | xv6-unrc/mkfs.c:16-17 | with the log that mkfs makes, LOGSIZE - 1 blocks behind the header, all reachable states are sound if and only if at most one process uses it |
| `LogHeader.HeaderIsLogged` | xv6-unrc/log.c:221-231 | in every reachable state the header names no sector twice, and during a transaction it names exactly the sectors that log_write was called for since the last commit |
| `LogHeader.GuardMeans` | xv6-unrc/log.c:215-218 | so log_write panics for a full log exactly when LOGSIZE different sectors, or as many as there are log blocks, have been logged since the last commit |
| `BufferCache.Unlinked` | xv6-unrc/bio.c:130-131 | unlinking a buffer keeps next and prev in agreement with the list without it |
| `BufferCache.Inserted` | xv6-unrc/bio.c:132-135 | linking it behind the head keeps them in agreement with the list that starts with it |
| `BufferCache.BCache.constructor` | xv6-unrc/bio.c:39-57 | binit: all buffers on the list, none of them caching anything |
| `BufferCache.BCache.Search` | xv6-unrc/bio.c:70-81 | the forward loop finds the first buffer of the list with the sector, if there is one |
| `BufferCache.BCache.Recyclable` | xv6-unrc/bio.c:83-94 | the backward loop finds the last buffer of the list that is neither busy nor dirty, if there is one |
| `BufferCache.BCache.Bget` | xv6-unrc/bio.c:62-96 | one pass of bget: the cached buffer if it is idle, sleep if it is busy, else the least recent reusable one, else the panic |
| `BufferCache.BCache.Brelse` | xv6-unrc/bio.c:122-141 | a panic exactly for an idle buffer; otherwise the buffer is idle and first on the list, all others keep their order and contents |
| `CacheProtocol.GetKeeps` | xv6-unrc/bio.c:62-96 | bget keeps one buffer per sector, one holder per buffer, and the agreement with a plain array of blocks |
| `CacheProtocol.ReadKeeps` | xv6-unrc/bio.c:99-108 | reading the sector keeps them |
| `CacheProtocol.ModifyKeeps` | xv6-unrc/bio.c:111-118 | a holder changing its buffer keeps them |
| `CacheProtocol.BwriteKeeps` | xv6-unrc/bio.c:111-118 | bwrite keeps them |
| `CacheProtocol.BrelseKeeps` | xv6-unrc/bio.c:122-141 | brelse keeps them |
| `CacheProtocol.RunInv` | xv6-unrc/bio.c:39-141 | the invariant holds along every run of any number of processes |
| `CacheProtocol.BreadReturnsLatest` | xv6-unrc/bio.c:99-108 | whoever holds a buffer that bread returned sees what was last stored in that sector, as if there were no cache |
| `CacheProtocol.DirtyMeansLogged` | xv6-unrc/bio.c:81-94 | a dirty buffer is in the log header and is not recycled, so the only copy of a logged block is never dropped |
| `CacheProtocol.RecyclesLeastRecent` | xv6-unrc/bio.c:81-94 | the buffer that is reused is the one released longest ago among those that can be |
| `CacheProtocol.BgetPanicsExact` | xv6-unrc/bio.c:66-96 | bget panics if and only if the sector is not cached and every buffer is busy or dirty |
| `CacheProtocol.InstalledClean` | xv6-unrc/log.c:68-82 | once every sector of the header has been written home, no buffer is dirty |
| `CacheProtocol.CommitPanicsExact` | xv6-unrc/log.c:174-183 | with no buffer held, the first bread of a commit panics if and only if the transaction has NBUF sectors |
| `CacheProtocol.CommitBreads` | xv6-unrc/log.c:68-200 | in any reachable state of a commit of fewer than NBUF sectors, where only its process holds buffers, no bread that write_log, write_head or install_trans makes panics or sleeps |
| `CacheCommit.Copy` | xv6-unrc/log.c:73-81 | one turn of install_trans or of write_log: two breads, one bwrite, two brelses |
| `CacheCommit.WholeCommit` | xv6-unrc/log.c:190-200 | a commit of fewer than NBUF sectors runs from begin to end, through all its breads, if nobody else holds a buffer |
| `CacheProtocol.CommitPanics` | xv6-unrc/log.c:174-183 | a run of conforming clients in which it does |
| `CacheProtocol.LogWriteKeeps` | xv6-unrc/log.c:229-229 | marking a buffer dirty in log_write keeps the cache invariant |
| `FsLayout.BitAtPutBitAt` | xv6-unrc/fs.c:65-67 | setting or clearing the bit of a block changes that bit of the bitmap block and no other |
| `FsLayout.InodeAtPutInode` | xv6-unrc/fs.c:202-218 | writing an inode into its slot of an inode block gives that inode there and leaves the other seven |
| `FsLayout.InodeRoundTrip` | xv6-unrc/fs.c:202-218 | an inode in memory and its 16 words on disk determine each other |
| `FsState.BitOfTaken` | xv6-unrc/fs.c:61-73 | after balloc the bits are as before except for the block it returns |
| `FsState.AttachAccounted` | xv6-unrc/fs.c:364-383 | storing a new block number keeps the accounting: a bit is set exactly for metadata, log and blocks in one slot of one inode |
| `FsFiles.AttachInodeExtends` | xv6-unrc/fs.c:364-375 | a block taken for a direct or the indirect slot extends that file and touches no other |
| `FsFiles.AttachEntryExtends` | xv6-unrc/fs.c:376-381 | the same for an entry of the indirect block |
| `FsFiles.WriteData` | xv6-unrc/fs.c:484-486 | writing a block of a file changes that block of that file and no other block of any file |
| `FsFiles.UpdatedFiles` | xv6-unrc/fs.c:202-218 | iupdate changes no block of any file |
| `FsFiles.UpdatedSynced` | xv6-unrc/fs.c:202-218 | iupdate brings one inode on disk up to date and leaves the others |
| `FsFiles.MappedBelowSize` | xv6-unrc/fs.c:453-459 | a block with bytes below the size of a file is there, so readi never makes bmap allocate |
| `FsFiles.ReadChunk` | xv6-unrc/fs.c:453-459 | the bytes of one block are the bytes of the file at that offset |
| `FsWrite.BmapThenFill` | xv6-unrc/fs.c:482-488 | one iteration of writei: the chunk is in the file, every other byte of every file is where it was |
| `FsWrite.ProgressStep` | xv6-unrc/fs.c:482-488 | what the loop of writei has done so far, one iteration further |
| `FsWrite.EndsNoHoles` | xv6-unrc/fs.c:490-493 | after writei every block below every size is there |
| `FsWrite.SplicedContents` | xv6-unrc/fs.c:482-493 | the file is the old one with the bytes written over it, longer if they end behind the end |
| `FsWrite.OtherContents` | xv6-unrc/fs.c:482-493 | every other file keeps its contents |
| `FsWrite.FinishedSynced` | xv6-unrc/fs.c:490-493 | the inodes on disk are those in memory, also when only addresses changed |
| `FsWrite.TallyStep` | xv6-unrc/fs.c:482-488 | one iteration logs one data block more, and bitmap blocks only for new blocks |
| `FsTrunc.StillTaken` | xv6-unrc/fs.c:400-416 | when itrunc comes to a block its bit is still set, so bfree does not panic and frees no block twice |
| `FsTrunc.TruncatedDropped` | xv6-unrc/fs.c:394-422 | after itrunc exactly the blocks of that file have become free, the file is empty, every other file is untouched, the inodes on disk are those in memory |
| `FsWrite.LoopBound` | xv6-unrc/fs.c:482-488 | the loop of writei logs at most 29 sectors for 13 blocks worth of bytes, and at most 27 before its last turn |
| `FsOverwrite.DataBlocksSize` | xv6-unrc/fs.c:359-387 | different blocks of a file are different sectors |
| `FsOverwrite.OverwriteSize` | xv6-unrc/fs.c:482-488 | a write within a file logs exactly the blocks its bytes fall into, one sector for each |
| `FsFormat.FormattedConsistent` | xv6-unrc/mkfs.c:91-96 | a formatted disk with the bits of metadata and log set satisfies all that the code keeps, and its files are empty |
| `FsFormat.CreatedConsistent` | xv6-unrc/sysfile.c:259-266 | so does a disk with an empty file in any inode |
| `FsFormat.OneFileConsistent` | xv6-unrc/fs.c:359-387 | so does a disk with one file of type T_FILE and up to twelve blocks, in any inode from 1 on |
| `FsFormat.MkfsRootHole` | xv6-unrc/mkfs.c:148-153 | the size that mkfs gives the root directory covers only blocks that are there if and only if the entries do not fill their blocks exactly |
| `FsOverwrite.ConfinedTaken` | xv6-unrc/fs.c:53-77 | balloc changes only blocks it logs, all below the log |
| `FsCrash.MountedSame` | xv6-unrc/fs.c:284-297 | inodes read from the blocks of a file system in order give its files, with the same block map and bitmap |
| `FsCrash.CrashDuringWrite` | xv6-unrc/file.c:135-150 | a transaction of filewrite cut anywhere, recovery with any interruptions, and a reboot: the file has its old contents or all bytes written, every other file is as before, and the file system is in order |
| `FsFormat.MkfsBalloc` | xv6-unrc/mkfs.c:233-247 | the bits of the first blocks and no others are set |
| `FsFormat.MkfsNotAccounted` | xv6-unrc/mkfs.c:155-155 | a bitmap that marks only the blocks in use, as that of mkfs, is not one that marks metadata, log and used blocks |
| `FsFormat.MkfsReachesLog` | xv6-unrc/fs.c:53-77 | on that bitmap balloc returns the blocks in order, and the log header itself when it has handed out all data blocks |
| `FsFormat.LogBlockExact` | xv6-unrc/fs.c:53-77 | with the bits of the log clear balloc returns a block of the log if and only if every data block is taken, and then the log header |
| `FsWrite.WroteTwice` | xv6-unrc/file.c:135-151 | two writes next to each other are one write |
| `FsWrite.ChunkBound` | xv6-unrc/file.c:126-133 | writing 13 blocks worth of bytes at any offset logs at most 30 = LOGSIZE different sectors |
| `FsCode.FileSystem.ScanBits` | xv6-unrc/fs.c:64-66 | the first clear bit of a bitmap block |
| `FsCode.FileSystem.Balloc` | xv6-unrc/fs.c:53-77 | the lowest block whose bit is clear, marked and zeroed; a panic exactly if there is none |
| `FsCode.FileSystem.Bfree` | xv6-unrc/fs.c:80-96 | clears one bit; a panic exactly if it was clear |
| `FsCode.FileSystem.LoadIndirect` | xv6-unrc/fs.c:373-375 | the indirect block, new and empty if there was none |
| `FsCode.FileSystem.BmapDirect` | xv6-unrc/fs.c:364-368 | the direct block, taken if it was missing; no other file notices |
| `FsCode.FileSystem.BmapIndirect` | xv6-unrc/fs.c:371-383 | the same through the indirect block |
| `FsCode.FileSystem.Bmap` | xv6-unrc/fs.c:359-387 | the block number of a file block; allocates only if it was missing, keeps the accounting, panics only on a full disk or behind MAXFILE |
| `FsCode.FileSystem.ReadStep` | xv6-unrc/fs.c:453-459 | one chunk of the file, nothing allocated |
| `FsCode.FileSystem.ReadLoop` | xv6-unrc/fs.c:453-459 | the bytes asked for |
| `FsCode.FileSystem.Readi` | xv6-unrc/fs.c:437-461 | -1 exactly for an offset behind the end or a wrapped sum; otherwise the bytes of the file from off on, cut at its end; no block is allocated |
| `FsCode.FileSystem.WriteStep` | xv6-unrc/fs.c:482-488 | the loop body does what FsWrite.Step says |
| `FsCode.FileSystem.WriteLoop` | xv6-unrc/fs.c:482-488 | all bytes written, and the sectors logged are counted; within the file it does not panic and logs exactly the blocks it writes |
| `FsCode.FileSystem.Iupdate` | xv6-unrc/fs.c:202-218 | the inode goes to its slot on disk |
| `FsCode.FileSystem.Finish` | xv6-unrc/fs.c:490-493 | size and inode are written exactly if the file has grown |
| `FsCode.FileSystem.WriteAccepted` | xv6-unrc/fs.c:482-494 | the file is spliced, nothing else changes, no holes, inodes in step with the disk |
| `FsCode.FileSystem.Writei` | xv6-unrc/fs.c:465-495 | refused without effect exactly for an offset behind the end, a wrapped sum or an end behind MAXFILE blocks; else complete; panics only on a full disk |
| `FsCode.FileSystem.TruncDirect` | xv6-unrc/fs.c:400-405 | the direct blocks are freed in order |
| `FsCode.FileSystem.TruncIndirect` | xv6-unrc/fs.c:407-417 | the entries of the indirect block and then the block itself |
| `FsCode.FileSystem.Itrunc` | xv6-unrc/fs.c:394-422 | as FsTrunc.TruncatedDropped says, without a panic |
| `FsCode.FileSystem.WriteTransaction` | xv6-unrc/file.c:135-150 | one turn of the loop: one transaction of at most LOGSIZE sectors, whose log_writes never find LOGSIZE of them in the header and which changes no block it does not log; within the file it logs exactly the blocks it writes, more than MAXOPBLOCKS if and only if it runs over the end of the tenth |
| `FsCode.LargeChunk` | xv6-unrc/file.c:126-135 | a transaction of filewrite with eleven sectors, on a file of type T_FILE in any inode from 1 on, from a state that satisfies all the code keeps |
| `FsCode.FileSystem.FileWrite` | xv6-unrc/file.c:117-156 | the transactions together write a prefix of the buffer as one contiguous write; all of it if and only if it starts in the file and ends within MAXFILE blocks; otherwise exactly the chunks that fit, and -1 |
| `Sched.EnqueueKeeps` | xv6-unrc/proc.c:24-36 | make_runnable adds the process to its level, once, as the last |
| `Sched.UnqueueKeeps` | xv6-unrc/proc.c:39-54 | unqueue takes the head, which is RUNNABLE and then in no queue |
| `Sched.LevelUpdateKeeps` | xv6-unrc/proc.c:57-64 | levelupdate moves the head one level up and keeps the queues in order |
| `Sched.AgeLevelKeeps` | xv6-unrc/proc.c:72-89 | one turn of calculateaging keeps them, and only heads have an age |
| `Sched.AgingKeeps` | xv6-unrc/proc.c:68-91 | so does the whole of it |
| `Sched.DispatchKeeps` | xv6-unrc/proc.c:387-412 | the scheduler keeps queues and CPUs in agreement: no process on two CPUs |
| `Sched.YieldKeeps` | xv6-unrc/proc.c:438-447 | so does yield |
| `Sched.SleepKeeps` | xv6-unrc/proc.c:471-492 | so does sleep |
| `Sched.WakeKeeps` | xv6-unrc/proc.c:510-521 | so does wakeup1 |
| `Sched.KillKeeps` | xv6-unrc/proc.c:535-553 | so does kill |
| `Sched.ExitKeeps` | xv6-unrc/proc.c:308-325 | so does exit |
| `Sched.AllocKeeps` | xv6-unrc/proc.c:112-126 | so does allocproc |
| `Sched.WaitKeeps` | xv6-unrc/proc.c:331-371 | so does wait |
| `Sched.WakeWakes` | xv6-unrc/proc.c:510-521 | exactly the sleepers on the channel become RUNNABLE, one level better, all other processes stay as they are |
| `Sched.RunInv` | xv6-unrc/proc.c:24-553 | every level holds exactly the RUNNABLE processes of its priority, once each, along every run |
| `Priorities.YieldExact` | xv6-unrc/proc.c:438-447 | after setpriority(level), yield indexes within the queues, and the invariant holds again, if and only if level modulo 2^16 is below MLFLEVELS |
| `Priorities.KillExact` | xv6-unrc/proc.c:535-553 | kill of the sleeper does so if and only if it is below MLFLEVELS |
| `Priorities.WakeupExact` | xv6-unrc/proc.c:510-521 | wakeup1 does so if and only if it is at most MLFLEVELS, because it takes one off first |
| `Priorities.FirstBadLevel` | xv6-unrc/sysproc.c:104-113 | setpriority(4) and yield index beyond the queues; setpriority(4), sleep and wakeup restore the invariant |
| `Aging.QueueBound` | xv6-unrc/proc.c:24-36 | no level holds more than NPROC processes |
| `Aging.DispatchMeasure` | xv6-unrc/proc.c:387-412 | dispatching another process never sets a waiting one back |
| `Aging.AgingMeasure` | xv6-unrc/proc.c:68-91 | each call of calculateaging brings a waiting process closer to the best level |
| `Aging.StepMeasure` | xv6-unrc/proc.c:24-91 | no event sets a waiting process back, and aging always brings it forward |
| `Aging.BoundedWaiting` | xv6-unrc/proc.c:68-91 | a process that stays RUNNABLE below level 0 sees fewer than AGEFORAGINGS * NPROC * level calls of calculateaging, whatever else happens |
| `Aging.TakesBest` | xv6-unrc/proc.c:388-404 | the scheduler takes the head of the best non-empty level, and takes none only if no process is RUNNABLE |
| `Aging.ReachableInv` | xv6-unrc/proc.c:24-553 | the invariant in every state reached from the empty table |
| `Waiting.WaitKeepsWaiting` | xv6-unrc/proc.c:331-371 | wait goes to sleep only if none of its children is a zombie |
| `Waiting.ExitStrands` | xv6-unrc/proc.c:308-325 | exit wakes whoever waits for the exiting process or for a zombie that it passes to init |
| `Waiting.NoLostExit` | xv6-unrc/proc.c:308-371 | in every state of every run no process is asleep in wait while one of its children is a zombie |
| `LifeCycle.EveryMove` | xv6-unrc/proc.c:112-553 | in every event every process stays as it is or makes one of twelve moves between states, each in the events that can cause it, with the priority as a number, the same pid and the mark of kill |
| `LifeCycle.KillEffect` | xv6-unrc/proc.c:535-553 | kill marks the first process with the pid, whatever its state; if it sleeps it is RUNNABLE at the tail of its own level; nothing else changes |
| `LifeCycle.YieldEffect` | xv6-unrc/proc.c:438-447 | yield makes the process RUNNABLE at the tail one level down, if there is one, and frees the CPU; nothing else changes |
| `LifeCycle.WaitEffect` | xv6-unrc/proc.c:331-371 | wait reaps the first zombie child and clears its pid, parent and mark; without one it returns for want of children or because of a kill, and else sleeps on the own address |
| `LifeCycle.SleepUntilWoken` | xv6-unrc/proc.c:471-521 | a process that has gone to sleep is woken by a wakeup of its channel, and by no other |
| `LifeCycle.StartEffect` | xv6-unrc/proc.c:259-266 | the end of fork makes the child RUNNABLE at the tail of its level, with its parent; nothing else changes |
| `LifeCycle.AllocEffect` | xv6-unrc/proc.c:112-152 | allocproc takes the first UNUSED slot, with the next pid, the best priority and age 0; its mark of kill stays as it was |
| `LifeCycle.PriorityEffect` | xv6-unrc/sysproc.c:104-113 | setpriority changes the priority of the caller, and nothing else |
| `Pids.PidsDiffer` | xv6-unrc/proc.c:95-127 | in every state of every run processes in use have different pids above 0, and none has one that allocproc is still to give out |
| `Pids.BornKilled` | xv6-unrc/proc.c:535-553 | no UNUSED slot carries the mark of kill after an event, so that no process is born killed, exactly if the event is not a kill that finds an UNUSED slot first and not a fork that fails after its child was killed |
| `Pids.KillZero` | xv6-unrc/proc.c:535-553 | kill(0) marks an UNUSED slot of the zeroed table, and the first process is born killed |
| `LifeCycle.ExitEffect` | xv6-unrc/proc.c:308-325 | init inherits the children, and exactly the sleepers on the parent, and on init if a zombie is passed on, are woken |
| `SchedCode.PTable.constructor` | xv6-unrc/proc.c:12-21 | the zeroed table is an empty set of queues |
| `SchedCode.PTable.MakeRunnable` | xv6-unrc/proc.c:24-36 | first, last and next describe the queues with the process appended |
| `SchedCode.PTable.Unqueue` | xv6-unrc/proc.c:39-54 | they describe the queues without the head; a panic exactly if the level is empty |
| `SchedCode.PTable.LevelUpdate` | xv6-unrc/proc.c:57-64 | the head moves up as Sched says |
| `SchedCode.PTable.AgeHead` | xv6-unrc/proc.c:72-89 | one turn of the loop as Sched says |
| `SchedCode.PTable.CalculateAging` | xv6-unrc/proc.c:68-91 | the loop as Sched says |
| `SchedCode.PTable.Scheduler` | xv6-unrc/proc.c:387-412 | the loop finds the best level and dispatches its head |
| `SchedCode.PTable.AllocProc` | xv6-unrc/proc.c:112-126 | the first unused slot, with the next pid; -1 exactly if there is none |
| `SchedCode.PTable.Sleep` | xv6-unrc/proc.c:471-492 | as LifeCycle.SleepUntilWoken says |
| `SchedCode.PTable.Yield` | xv6-unrc/proc.c:438-447 | as LifeCycle.YieldEffect says |
| `SchedCode.PTable.Wakeup1` | xv6-unrc/proc.c:510-521 | the loop, as Sched.WakeWakes says |
| `SchedCode.PTable.Kill` | xv6-unrc/proc.c:535-553 | the loop, as LifeCycle.KillEffect says; 0 exactly if a process has the pid |
| `SchedCode.PTable.PassChildren` | xv6-unrc/proc.c:314-320 | the loop passes the children to init and wakes it for each zombie, as Sched says |
| `SchedCode.PTable.Exit` | xv6-unrc/proc.c:308-325 | the loops as Sched says |
| `SchedCode.PTable.FindZombie` | xv6-unrc/proc.c:337-346 | the loop finds the first zombie child, and whether there are children |
| `SchedCode.PTable.Wait` | xv6-unrc/proc.c:331-371 | the loop reaps the first zombie child, or returns -1, or sleeps, as Sched says |
| `Semaphores.GetKeeps` | xv6-unrc/semaphore.c:78-123 | semget keeps references equal to the number of open slots and every other part of the invariant |
| `Semaphores.FreeKeeps` | xv6-unrc/semaphore.c:127-150 | so does semfree, which never answers -2 |
| `Semaphores.AttachKeeps` | xv6-unrc/semaphore.c:199-222 | so do semdup and semclose together with the slot they set or clear |
| `Semaphores.TakeKeeps` | xv6-unrc/semaphore.c:166-171 | so does semdown under the lock |
| `Semaphores.PutKeeps` | xv6-unrc/semaphore.c:191-193 | so does semup under the lock |
| `Semaphores.WakeupKeeps` | xv6-unrc/semaphore.c:193-195 | so does the wakeup semup makes after the lock |
| `Semaphores.NoLostWakeup` | xv6-unrc/semaphore.c:154-196 | whoever sleeps on a semaphore with a positive value is about to be woken by a semup that has not come to its wakeup |
| `Semaphores.ReferencesExact` | xv6-unrc/semaphore.c:78-222 | a semaphore has as many references as there are open slots that hold it, in every reachable state |
| `Semaphores.GetResults` | xv6-unrc/semaphore.c:78-123 | when semget answers -1, -2, -3, -4, -5 or an id, and what an id stands for |
| `Semaphores.DupThenClose` | xv6-unrc/semaphore.c:199-222 | semdup with the slot it sets gives the child what the parent has open, semclose with the slot it clears undoes exactly that |
| `Semaphores.FreeResults` | xv6-unrc/semaphore.c:127-150 | semfree answers 0 exactly if the caller has the semaphore open, and then one slot fewer holds it |
| `SemCounts.StepCounts` | xv6-unrc/semaphore.c:78-196 | which steps change a value: a creating semget sets it, a semup that finds the semaphore adds one, a semdown that ends outside its sleep takes one, nothing else does |
| `SemCounts.ValueCounts` | xv6-unrc/semaphore.c:78-196 | in every state of every run the value of a semaphore is the initvalue of the semget that created it last, plus the semups since then that found it, minus the semdowns since then that got through, all counted over the events |
| `SemCounts.NeverOverdrawn` | xv6-unrc/semaphore.c:154-196 | so no more semdowns get through than the initvalue and the semups allow |
| `SemCode.SemTable.AllocInProcess` | xv6-unrc/semaphore.c:26-38 | the loop finds the first empty slot |
| `SemCode.SemTable.SearchInProcess` | xv6-unrc/semaphore.c:41-54 | the loop finds the first slot with the id |
| `SemCode.SemTable.AllocInSystem` | xv6-unrc/semaphore.c:58-69 | the loop finds the first semaphore nobody has open |
| `SemCode.SemTable.SemGet` | xv6-unrc/semaphore.c:78-123 | as Semaphores.Get says, invariant kept |
| `SemCode.SemTable.SemFree` | xv6-unrc/semaphore.c:127-150 | as Semaphores.Free says, invariant kept |
| `SemCode.SemTable.SemDown` | xv6-unrc/semaphore.c:154-175 | takes one from a positive value, else the caller sleeps and nothing else changes; -1 exactly if the process has not opened the semaphore |
| `SemCode.SemTable.SemUp` | xv6-unrc/semaphore.c:179-196 | adds exactly one to the value of the semaphore with this id; -1 exactly if the process has not opened the semaphore |
| `PipeCode.Compare` | xv6-unrc/pipe.c:85-85 | counters that wrap at 2^32 can still be compared |
| `PipeCode.Pipe.constructor` | xv6-unrc/pipe.c:32-36 | an empty pipe with both ends open |
| `PipeCode.Pipe.Store` | xv6-unrc/pipe.c:93-93 | the byte is appended to the stream; no byte still in the ring is overwritten |
| `PipeCode.Pipe.Write` | xv6-unrc/pipe.c:84-94 | bytes are appended in order until the end or until the pipe is full, across any wrap of the counters |
| `PipeCode.Pipe.Fetch` | xv6-unrc/pipe.c:116-116 | the oldest byte leaves |
| `PipeCode.Pipe.Read` | xv6-unrc/pipe.c:113-117 | the oldest bytes leave in order, as many as asked for or as there are |
| `PipeCalls.Calls.constructor` | xv6-unrc/pipe.c:32-36 | a new pipe that nobody is using |
| `PipeCalls.Calls.Write` | xv6-unrc/pipe.c:78-98 | pipewrite between two points without the lock does the step of PipeModel: what it stores, whom it wakes, and whether it sleeps at byte j or returns n or -1 |
| `PipeCalls.Calls.Read` | xv6-unrc/pipe.c:100-121 | so does piperead: it sleeps, or returns the oldest bytes, or -1 if killed |
| `PipeCalls.Calls.Close` | xv6-unrc/pipe.c:59-69 | so does pipeclose |
| `PipeModel.StepKeeps` | xv6-unrc/pipe.c:59-121 | every step keeps the stream |
| `PipeModel.FirstInFirstOut` | xv6-unrc/pipe.c:78-121 | in every run of any readers and writers, with any kills, what was removed followed by what is in the pipe is what was stored |
| `PipeBytes.WritersProgress` | xv6-unrc/pipe.c:84-94 | at every moment of every run a process inside pipewrite has put the bytes before its position into the pipe, in order, and no others |
| `PipeBytes.WriteReturns` | xv6-unrc/pipe.c:84-97 | a pipewrite that returns n has stored all bytes of its argument, in order; else it returns -1 |
| `PipeBytes.ReadReturns` | xv6-unrc/pipe.c:105-121 | a piperead returns as many bytes as asked for or as there are, the oldest ones, and -1 only if killed |
| `PipeBytes.EndToEnd` | xv6-unrc/pipe.c:78-121 | in every run what was stored is what the calls of pipewrite put in, call by call in the order of their steps, and what was removed is what the calls of piperead returned, in order |
| `PipeModel.CloseWakes` | xv6-unrc/pipe.c:60-69 | closing an end wakes everyone asleep at the other one |
| `PipeModel.KillWakes` | xv6-unrc/pipe.c:86-107 | kill marks the process and ends its sleep |
| `PipeModel.LeavesAtOnce` | xv6-unrc/pipe.c:84-121 | a process that has been killed, or whose other end is closed, leaves the call when it goes on |
| `PipeModel.FairExact` | xv6-unrc/pipe.c:78-121 | a step lets someone sleep for something that is there if and only if it is a killed writer with more than PIPESIZE bytes to go while a reader sleeps |
| `PipeModel.NobodyOversleeps` | xv6-unrc/pipe.c:78-121 | in runs without such a step readers sleep only on an empty pipe that can still be written, writers only on a full one that can still be read |
| `PipeModel.NobodyOversleepsUnkilled` | xv6-unrc/pipe.c:78-121 | in particular in runs without kill |
| `PipeModel.KilledWriterStrandsReader` | xv6-unrc/pipe.c:86-89 | a run from a new pipe: a reader sleeps, a writer is killed and fills the pipe, and the reader is still asleep |
| `PageTables.FreeListPop` | xv6-unrc/kalloc.c:82-95 | taking the first page leaves the list of the others |
| `PageTables.FreeListPush` | xv6-unrc/kalloc.c:72-74 | a freed page is in front of the list, linked through its first word |
| `VmCode.Machine.Kalloc` | xv6-unrc/kalloc.c:82-95 | the first free page, 0 exactly if there is none |
| `VmCode.Machine.Kfree` | xv6-unrc/kalloc.c:59-77 | the page is free again |
| `VmCode.Machine.FreeRange` | xv6-unrc/kalloc.c:45-52 | exactly the pages of the range have become free |
| `PageTables.EntryIs` | xv6-unrc/vm.c:84-84 | address and flags of an entry can be read back |
| `PageTables.TreeFrame` | xv6-unrc/vm.c:46-66 | an address space does not depend on memory outside its directory and page tables |
| `PageTables.WithTableTree` | xv6-unrc/vm.c:54-64 | a new page table makes no page appear or vanish, and its directory entry allows everything |
| `PageTables.EntryDecides` | xv6-unrc/vm.c:54-64 | directory entries allow user access and writing, so what a program may do with a page is up to its page-table entry alone |
| `PageTables.MapTree` | xv6-unrc/vm.c:82-84 | mapping a page adds that page and its frame, at one place |
| `PageTables.UnmapTree` | xv6-unrc/vm.c:264-270 | unmapping a page removes exactly it |
| `VmCode.VisitsExact` | xv6-unrc/vm.c:259-263 | the 4 MB step of deallocuvm passes over a mapped page if and only if the page is in the first page table behind a start without one, below the start modulo 4 MB |
| `VmCode.PassedOver` | xv6-unrc/vm.c:259-263 | for every start and every page that lies lower in its 4 MB than the start, an address space where that page is mapped and passed over |
| `VmCode.NoneMissed` | xv6-unrc/vm.c:279-285 | from a 4 MB boundary, or from a page with a page table, no page is passed over |
| `VmCode.Machine.WalkPgdir` | xv6-unrc/vm.c:46-66 | the page table of a page, made empty if asked for; no mapping changes |
| `VmCode.Machine.MapPage` | xv6-unrc/vm.c:80-85 | one page mapped; a panic exactly if it was mapped |
| `VmCode.Machine.MapPages` | xv6-unrc/vm.c:71-91 | the pages of the range get consecutive frames up to the first that is mapped already, the panic, or that lacks memory for a page table; no other mapping changes |
| `VmCode.Machine.SetupKvm` | xv6-unrc/vm.c:129-145 | every page above KERNBASE is mapped as kmap says, nothing below, on frames that were free; 0 only when no frame is left |
| `VmCode.Machine.UnmapPage` | xv6-unrc/vm.c:260-271 | the page is unmapped and its frame free |
| `VmCode.Machine.DeallocUvm` | xv6-unrc/vm.c:250-274 | exactly the pages of the range that are not passed over are unmapped and their frames freed |
| `VmCode.Machine.FreeTables` | xv6-unrc/vm.c:286-291 | every page table is freed once |
| `VmCode.Machine.FreeVm` | xv6-unrc/vm.c:278-293 | every frame of the address space, and no other, is free again, each once |
| `VmCode.Machine.CopyPage` | xv6-unrc/vm.c:327-333 | the child gets a page with the same flags and contents in a frame that was free |
| `VmCode.Machine.CopyUvm` | xv6-unrc/vm.c:310-340 | the child has the same pages below sz with the same flags and contents, on frames disjoint from the parent, whose memory is untouched; without memory the same frames are free again but for at most one, or, when setupkvm failed, none; the panic only for a page without a page table |
| `VmCode.CopyAccess` | xv6-unrc/vm.c:310-340 | a program may read and write its copy of a page exactly as the parent may its page |
| `VmCode.Machine.CopyThenFree` | xv6-unrc/vm.c:278-340 | copying and freeing the copy restores the set of free pages |
| `Heap.Disjoint` | xv6-unrc/user/umalloc.c:24-90 | two blocks, free or live, do not overlap |
| `Heap.InsertKeeps` | xv6-unrc/user/umalloc.c:30-42 | a freed block put at its place keeps the circle, the order and the tiling |
| `Heap.MergeKeeps` | xv6-unrc/user/umalloc.c:33-41 | joining a block to the neighbour it touches keeps them |
| `Heap.FreedKeeps` | xv6-unrc/user/umalloc.c:24-44 | after free the list is circular, in address order, no two free blocks touch, free and live blocks tile the same memory as before |
| `Heap.UnlinkKeeps` | xv6-unrc/user/umalloc.c:76-77 | giving out a whole free block keeps all that |
| `Heap.SplitKeeps` | xv6-unrc/user/umalloc.c:78-82 | giving out the end of one keeps all that |
| `Heap.GrowKeeps` | xv6-unrc/user/umalloc.c:52-58 | memory from sbrk is added to the tiling and overlaps nothing |
| `HeapCode.UnitsSuffice` | xv6-unrc/user/umalloc.c:69-69 | the block holds nbytes if and only if nbytes is at most 2^32 - 8 |
| `HeapCode.SbrkExact` | xv6-unrc/user/umalloc.c:52-52 | morecore asks sbrk for the bytes of nu units if and only if nu is below 2^28; for a negative number above, for 0 at 2^29 |
| `HeapCode.RequestExact` | xv6-unrc/user/umalloc.c:52-69 | the requests for which it asks for another amount are those from 2^31 - 15 to 2^32 - 8 bytes |
| `HeapCode.Stops` | xv6-unrc/user/umalloc.c:30-32 | the search of free stops at an element exactly if the block belongs behind it |
| `HeapCode.DownMem` | xv6-unrc/user/umalloc.c:33-42 | the header assignments of free do what joining upwards and downwards means |
| `HeapCode.Allocator.constructor` | xv6-unrc/user/umalloc.c:21-22 | before the first call there are no blocks |
| `HeapCode.Allocator.Place` | xv6-unrc/user/umalloc.c:29-32 | the search ends, at the place of the block |
| `HeapCode.Allocator.Free` | xv6-unrc/user/umalloc.c:24-44 | invariant kept, the block no longer live, no memory lost or gained |
| `HeapCode.Allocator.MoreCore` | xv6-unrc/user/umalloc.c:46-61 | sbrk memory joins the free list; not if sbrk refused or was asked for a wrong amount |
| `HeapCode.Allocator.Search` | xv6-unrc/user/umalloc.c:74-89 | one round of the list finds a block that is large enough, if there is one |
| `HeapCode.Allocator.Take` | xv6-unrc/user/umalloc.c:75-84 | the block given out was not live, has the size asked for, and no memory is lost |
| `HeapCode.Allocator.Malloc` | xv6-unrc/user/umalloc.c:63-90 | for every request: a new live block of the right size; sbrk is asked at most once and only if no free block is large enough; no block only if sbrk refused, or was asked for an amount that wrapped, and exactly when it was |
| `Shell.GetToken` | xv6-unrc/user/sh.c:266-309 | positions never go back, and a token that is not the end of the line has characters |
| `Shell.ParseRedirs` | xv6-unrc/user/sh.c:375-398 | terminates; every file name is a maximal word of the line |
| `Shell.ParseArgs` | xv6-unrc/user/sh.c:430-446 | terminates; every argument is a maximal word, fewer than MAXARGS |
| `Shell.ParseLine` | xv6-unrc/user/sh.c:345-360 | terminates on every line, and builds its tree from words of the line only |
| `ShellTokens.PeekToks` | xv6-unrc/user/sh.c:311-321 | peek looks at the next token of the line |
| `ShellTokens.NextTok` | xv6-unrc/user/sh.c:266-309 | gettoken reads the next token of the line |
| `ShellTokens.SpacedToks` | xv6-unrc/user/sh.c:266-309 | a line spelled from tokens, with any white space between those that would not run together without, has these tokens |
| `ShellTokens.LineIsSpaced` | xv6-unrc/user/sh.c:266-309 | every line is spelled like this from its tokens |
| `ShellAccepts.ExecToks` | xv6-unrc/user/sh.c:400-447 | words and redirections in any order, or a block with redirections behind it, are read as one command |
| `ShellAccepts.PipeToks` | xv6-unrc/user/sh.c:362-373 | commands with bars between them are read as one pipeline, nested to the right |
| `ShellAccepts.BackToks` | xv6-unrc/user/sh.c:345-354 | a pipeline with any number of ampersands behind it is put into the background that many times |
| `ShellAccepts.LineToks` | xv6-unrc/user/sh.c:345-360 | a line up to its end or to a closing parenthesis is read as the list it is |
| `ShellAccepts.LineForm` | xv6-unrc/user/sh.c:345-447 | whatever parseline accepts is a line of the grammar, and the tree is what it means |
| `ShellAccepts.SimpleCommand` | xv6-unrc/user/sh.c:416-447 | a lone simple command is read with all words inside all redirections exactly if it has fewer than MAXARGS words; a tenth one is refused |
| `ShellAccepts.Grammar` | xv6-unrc/user/sh.c:328-447 | parsecmd accepts a line if and only if its tokens are those of a list of backgrounded pipelines of simple commands and blocks, and builds the tree that this means |
| `ShellPrint.Language` | xv6-unrc/user/sh.c:266-447 | the accepted lines are exactly the forms of the grammar, spelled with any white space |
| `ShellPrint.RoundTrip` | xv6-unrc/user/sh.c:328-447 | every tree with at most MAXARGS - 1 words per command, printed with parentheses only where the grammar needs them and any white space, is parsed to itself |
| `ShellPrint.FewestBlocks` | xv6-unrc/user/sh.c:345-414 | no line of the grammar says the same with fewer parentheses |
| `ShellPrint.PipelineNests` | xv6-unrc/user/sh.c:362-373 | c1 to cn with bars between them is c1, piped to the pipeline of the others, for every n |
| `ShellPrint.ListNests` | xv6-unrc/user/sh.c:345-360 | p1 to pn with semicolons between them is p1, then the list of the others, where each may be in the background |
| `ShellPrint.AmpsNest` | xv6-unrc/user/sh.c:351-354 | each ampersand behind a pipeline is one more turn into the background |
| `ShellPrint.AppendIsOutput` | xv6-unrc/user/sh.c:386-394 | every accepted line is parsed to the same tree with > in the place of each >> |
| `ShellCode.Parser.GetToken` | xv6-unrc/user/sh.c:266-309 | the loops compute Shell.GetToken and move the cursor behind it |
| `ShellCode.Parser.Peek` | xv6-unrc/user/sh.c:311-321 | the cursor moves to the next token; whether it is one of the given ones |
| `ShellCode.Parser.ParseRedirs` | xv6-unrc/user/sh.c:375-398 | the loop computes Shell.ParseRedirs |
| `ShellCode.Parser.ParseArgs` | xv6-unrc/user/sh.c:430-446 | the loop computes Shell.ParseArgs |
| `ShellCode.Parser.ParseExec` | xv6-unrc/user/sh.c:416-447 | reads one command: Shell.ParseExec, which ShellAccepts.ExecToks ties to the grammar |
| `ShellCode.Parser.ParseBlock` | xv6-unrc/user/sh.c:400-414 | reads a block and its redirections: Shell.ParseBlock |
| `ShellCode.Parser.ParsePipe` | xv6-unrc/user/sh.c:362-373 | reads one pipeline: Shell.ParsePipe, which ShellAccepts.PipeToks ties to the grammar |
| `ShellCode.Parser.ParseBacks` | xv6-unrc/user/sh.c:351-354 | the loop takes every ampersand: Shell.ParseBacks |
| `ShellCode.Parser.ParseLine` | xv6-unrc/user/sh.c:345-360 | reads one list: Shell.ParseLine, which ShellAccepts.LineToks and LineForm tie to the grammar |
| `ShellCode.Parser.ParseCmd` | xv6-unrc/user/sh.c:328-340 | the tree of the whole line, or the panic: Shell.ParseCmd, which accepts exactly the grammar |
| `ShellCode.NulTerminate` | xv6-unrc/user/sh.c:450-494 | a NUL goes behind every word of the tree, and nowhere else |
| `ShellCode.NoEndInside` | xv6-unrc/user/sh.c:450-494 | no such place is inside a word |
| `ShellCode.Terminated` | xv6-unrc/user/sh.c:450-494 | afterwards every argument and file name is, as a C string, exactly the word that gettoken delimited |
| `Grep.AcceptsEnd` | xv6-unrc/user/grep.c:90-91 | the anchored end matches the end of the text only |
| `Grep.AcceptsOne` | xv6-unrc/user/grep.c:92-93 | a single character takes one character of the text |
| `Grep.AcceptsStar` | xv6-unrc/user/grep.c:97-105 | a starred character takes any number of them, then the rest matches |
| `Grep.ParseShow` | xv6-unrc/user/grep.c:84-95 | a pattern that is written down is read back as it was |
| `Grep.ShowParse` | xv6-unrc/user/grep.c:84-95 | every string is the writing of the pattern it is read as, and of no other: this settles $ in the middle, a leading * and ** |
| `Grep.MatchHere` | xv6-unrc/user/grep.c:84-95 | true exactly if a prefix of the text is in the language of the pattern, the whole text if it is anchored |
| `Grep.MatchStar` | xv6-unrc/user/grep.c:98-105 | the same for c* followed by a pattern |
| `Grep.Match` | xv6-unrc/user/grep.c:71-81 | true exactly if that holds at some position of the text, at the first one after a leading ^ |

## Left out

- Device drivers, interrupts, boot code, the scheduler's context switch: hardware.
- Locks themselves: a critical section is one event; lock order and interrupts are not modelled.
- System call argument checks, exec, directories and path names, the inode cache and its reference counts, `ialloc`, `iput`: mostly plumbing around the operations modelled here.
- `allocuvm`, `copyout`, `mmap.c`: their out-of-memory paths and region arithmetic do not have the properties one would state.
- `runcmd`, the user utilities, grep's line buffer: input and output.
- LogProtocol.BeginAlways: begin_op's sleep is woken in the model by every end_op and commit; that a sleeper is eventually scheduled is not stated.
- LogProtocol.GroupCommit: the cache of LogProtocol holds every block; the panic of bget in a commit is CacheProtocol's.
- LogLimits.TornHeader: a sector write behind the end of the disk is taken to change nothing on it.
- CacheProtocol.RunInv: clients are taken to work only on buffers they hold and to pass every changed buffer to log_write or bwrite before brelse, as the comment at the top of bio.c asks.
- FsCode.FileSystem.Readi: files that are devices go to the device switch, which is not modelled; the same holds for Writei and FileWrite.
- FsCode.FileSystem.WriteAccepted: says nothing about the state after balloc's panic on a full disk, because the kernel stops there.
- FsCrash.CrashDuringWrite: one transaction at a time; filewrite makes several, each atomic by itself.
- Sched.ExitKeeps: closing files, semaphores and mappings in exit happens before the part under ptable.lock and is not part of it; init itself does not exit (the code panics).
- Sched.RunInv: setpriority is called with existing levels; for the others see Priorities.
- Waiting.NoLostExit: only wait sleeps on the address of a process, and no process is its own parent.
- SemCounts.NeverOverdrawn: value is an unbounded integer; 2^31 ups without a down would overflow the C int.
- Semaphores.AttachKeeps: semdup with the child's slot, and semclose with the cleared slot, are one step each, because no other process looks at those slots.
- Pids.PidsDiffer: nextpid is an unbounded integer; after 2^31 forks the C int would start again below 0.
- PageTables.EntryDecides: the accessed and dirty bits that the processor sets in entries are not modelled.
- ShellAccepts.Grammar: which of the parser's messages a refused line gets is stated for too many words only.
- PipeModel.FirstInFirstOut: an end of a pipe is closed only when no process is inside a call that uses it, because the call holds a reference to the file.
- VmCode.Machine.MapPages: the range is not empty and does not wrap at 4 GB, and its pages below KERNBASE get frames that no address space has and that are not free, as all callers see to.
- HeapCode.Allocator.Malloc: the model stops where sbrk is asked for another amount than morecore records; sbrk's answers are at or above the old break.
- HeapCode.Allocator.Free: of a live block only; freeing anything else corrupts the list in the C code too.
- ShellCode.Parser.ParseArgs: the C code adds words to a command node that is already inside its redirections; here words and redirections are collected and joined at the end.
- Shell.GetToken: reading behind the end of the line gives the NUL that is there; a line has no other.
