# Verified models of the xv6 storage, synchronisation, memory and shell code

The repository holds a teaching operating system and the course projects built on it. This
project models its hardest parts in Dafny and proves what they are for. Paths below are relative
to the root of the repository; `CS_537_P2/src` is the copy of the kernel and user library that the
models follow.

* **Crash-safe storage.** The redo log is modelled twice. `LogProtocol` is a transition system over any
  number of operations, with a crash allowed between any two block writes; `LogSafety` proves that it
  refines an atomic store, and `LogLimit` finds the exact size of operation for which the reservation in
  `begin_op` keeps that true. `RedoLog` is the imperative code over the buffer cache of `Bio` and
  `BufferCache`: it records every disk image a crash could leave, and each of them recovers to the
  state before the commit or the state after it. `LogRuns` takes that code through any sequence of
  operations from boot on. Above the log, `FsLayout`, `Ownership`, `FileBytes`,
  `FileSystem` and `FileWrite` model the block bitmap, inodes with direct and indirect blocks, and
  chunked writes: files are flat byte arrays, every block has one owner, and each transaction fits.
  `FileRuns` takes this to runs over many files, and `DurableWrite` joins it to the log: a crash at any
  point of a write leaves a whole number of its chunks.
* **Sleeping and waking.** `Monitor` is sleep/wakeup over any number of processes with program counters;
  `SleepLock`, `Pipe`, `PipeWakeup` and `PipeCalls` are the protocols built on it, with theorems over whole
  runs; `PipeCalls` is about what each read and write hands to its caller.
* **Memory.** `FreeList` and `Umalloc` are the user library's allocator, and `HeapRuns` its runs. `Paging` and
  `VirtualMemory` are the two-level page tables over the list of free frames, which lives inside the free
  frames; what they give is stated through the processor's own walk from an address to a place and its rights.
* **Scheduling and queueing.** `Scheduler` is the multi-level scheduler of `CS_537_P4` over any number of
  processors and any runs of system calls, with what each call and the decay of priorities do; `PriorityQueue` is the linked job queue of `CS_537_P6`.
* **A log-structured file system.** `WfsTree`, `WfsLog` and `Wfs` model the file system of `CS_537_P7`:
  entries that tile the disk, last-entry-wins replay, and operations that refine those of a file tree.
  `WfsRuns` is any sequence of calls from mkfs on against a table of paths.
* **Text.** `Grep` is the pattern matcher against a declarative semantics. `Shell` is the shell's
  recursive-descent parser; `ShellGrammar` gives the language of command lines without it, and shows that it
  accepts exactly that language with exactly the commands meant. `ShellTrees` is its round trip with a
  printer, and `ShellBuffer` the step that turns spans of the input line into C strings in place.

Where the code and its own promises disagree, the code is followed and the exact condition is proved:

* `param.h` calls `MAXOPBLOCKS` the most blocks an operation writes, but the panic test in `log_write` runs before
  absorption, against `log.size - 1` and without the lock. No run panics if and only if operations log fewer than
  `MAXOPBLOCKS` blocks (`LogLimit.ReservationExact`), and with the log that mkfs makes crashes are survived under the
  same condition only: two operations can pass the test together and the commit then runs past the log into the
  file system (`LogLimit.AtomicityExact`, `LogLimit.TornCommit`).
* A writer that finds itself killed leaves a pipe without waking its readers, and a run leaves a reader asleep beside
  its data if and only if that happens in it (`PipeWakeup.StrandsExactly`).
* `malloc` hands out a block with memory behind it if and only if at most 2^31 - 16 bytes are asked for. Above that
  the argument of `sbrk` wraps or turns negative, `sbrk` succeeds, and the header is stored at the old end of the
  process: the process dies there, or, when its last page has room for the header, gets a block with no memory
  behind it (`Umalloc.Heap.Malloc`, `Umalloc.HugeMalloc`).
* The scheduler gives a processor only to runnable processes if and only if there is at most one processor
  (`Scheduler.SafeExactly`).
* In the log-structured file system creating a path keeps a tree exactly when the path is new, because the test for
  an existing path never refuses (`WfsTree.CreateOkExactly`), and the space check of creation covers one header, that
  of unlinking is missing, so both can store past the end of the disk, exactly when the contracts say
  (`Wfs.Disk.Create`, `Wfs.Disk.Unlink`, `Wfs.CreateOverruns`, `Wfs.UnlinkOverruns`).

## Model

| member | source | states |
|---|---|---|
| LogProtocol.HeaderRoundTrip | CS_537_P2/src/log.c:84-113 | what write_head stores in the header block is what read_head loads, for every header that fits |
| LogSafety.RecoverReplays | CS_537_P2/src/log.c:68-81 | recovery writes every logged block home and touches no other home block |
| LogSafety.ReplayUnique | CS_537_P2/src/log.c:115-122 | any store that agrees with the log is the one recovery builds |
| LogSafety.LoggedReplays | CS_537_P2/src/log.c:192-198 | the header write is the commit point: after it the log replays to the cached blocks |
| LogSafety.InstallReplays | CS_537_P2/src/log.c:68-81 | a crash after any prefix of the installation still recovers to the committed blocks |
| LogSafety.BeginStep | CS_537_P2/src/log.c:125-142 | admitting an operation keeps header length plus outstanding credits within the log |
| LogSafety.AppendStep | CS_537_P2/src/log.c:213-233 | recording a block, absorbed or new, keeps header entries distinct and the reservation intact |
| LogSafety.EndStep | CS_537_P2/src/log.c:145-174 | the last operation to end starts a commit of whole operations only |
| LogSafety.CopyStep | CS_537_P2/src/log.c:177-190 | copying a block into the log leaves the committed store as it was |
| LogSafety.WriteHeadStep | CS_537_P2/src/log.c:101-113 | the header write moves the committed store, in one step, from before to after the whole group |
| LogSafety.InstallStep | CS_537_P2/src/log.c:68-81 | writing one logged block home keeps the committed store |
| LogSafety.EraseStep | CS_537_P2/src/log.c:192-202 | erasing the header after installation keeps the committed store |
| LogSafety.StepInv | CS_537_P2/src/log.c:69-233 | every step of every operation, of the committer and of the crash keeps the invariant and matches a step of the atomic store |
| LogSafety.Simulation | CS_537_P2/src/log.c:69-233 | every run is matched, label for label, by a run of the atomic store |
| LogSafety.CrashAtomicity | CS_537_P2/src/log.c:69-202 | after any run with any crashes, recovery rebuilds exactly the blocks of the groups whose header write reached the disk; operations may log MAXOPBLOCKS - 1 blocks, or MAXOPBLOCKS if the log has a block more than LOGSIZE |
| LogSafety.NoPanic | CS_537_P2/src/log.c:213-222 | operations of at most MAXOPBLOCKS - 1 blocks never reach either panic, under any interleaving, though n is read without the lock |
| LogLimit.ReservationExact | CS_537_P2/src/log.c:125-142 | for every log of LOGSIZE blocks or more, no run panics if and only if operations log fewer than MAXOPBLOCKS distinct blocks |
| LogLimit.Overrun | CS_537_P2/src/log.c:213-222 | a run in which three operations of MAXOPBLOCKS blocks reach the panic, also by logging a block again |
| LogLimit.AtomicityExact | CS_537_P2/src/log.c:177-233 | with the log size mkfs uses, recovery finds exactly what was committed after every run if and only if operations log fewer than MAXOPBLOCKS distinct blocks |
| LogLimit.TornCommit | CS_537_P2/src/log.c:177-222 | a run in which two tests made without the lock pass at 28 entries, the header reaches 30, and write_log changes a block of the file system though nothing is committed |
| Bio.PushFrontOk | CS_537_P2/src/bio.c:120-141 | linking a buffer after the head yields a well-formed ring with it in front |
| Bio.UnlinkOk | CS_537_P2/src/bio.c:120-141 | unlinking a buffer yields a well-formed ring without it, the rest in order |
| Bio.ViewUpdate | CS_537_P2/src/bio.c:60-92 | changing the buffer of one block changes the cached contents of that block only |
| BufferCache.Touch | CS_537_P2/src/bio.c:120-141 | moving a released buffer to the front keeps the ring in order of release |
| BufferCache.Cache.constructor | CS_537_P2/src/bio.c:38-57 | binit yields a coherent cache of unused buffers showing the disk |
| BufferCache.Cache.Lookup | CS_537_P2/src/bio.c:68-75 | finds the buffer that holds the block, if there is one |
| BufferCache.Cache.Victim | CS_537_P2/src/bio.c:77-90 | the buffer chosen for recycling is clean and idle and was released longest ago; none is chosen only when none is idle and clean |
| BufferCache.Cache.Bget | CS_537_P2/src/bio.c:60-92 | a hit takes a reference, a miss recycles the least recently released clean idle buffer, and no cached contents change |
| BufferCache.Cache.Bread | CS_537_P2/src/bio.c:94-106 | returns the block's current contents in a buffer locked by the caller, all others untouched |
| BufferCache.Cache.Bwrite | CS_537_P2/src/bio.c:108-115 | writes exactly that block to disk, as one atomic image |
| BufferCache.Cache.Brelse | CS_537_P2/src/bio.c:117-141 | releases the buffer, keeps contents and coherence, and makes it most recently released when idle |
| RedoLog.Log.WriteHead | CS_537_P2/src/log.c:101-113 | one disk write, after which the header on disk reads back as the list in memory |
| RedoLog.Log.WriteLog | CS_537_P2/src/log.c:177-190 | copies every listed block into the log; every image on the way recovers to the old store |
| RedoLog.Log.InstallTrans | CS_537_P2/src/log.c:68-81 | writes every logged block home; every image on the way recovers to the new store |
| RedoLog.RoomyTwo | CS_537_P2/src/log.c:177-190 | with at most NBUF - 2 blocks pinned, the two buffers that write_log and install_trans hold at once can always be had |
| RedoLog.Log.Commit | CS_537_P2/src/log.c:192-202 | up to one point every disk image recovers to the store before, from it on to the cached store; with at most NBUF - 2 blocks logged it always ends, with an empty log and the cached store on disk |
| RedoLog.Log.LogWrite | CS_537_P2/src/log.c:213-233 | appends the block unless it is already listed, pins its buffer, and panics exactly when the list is full or no operation is open |
| RedoLog.Log.EndOp | CS_537_P2/src/log.c:145-174 | only the last outstanding operation commits, and then atomically, leaving no buffer in use or pinned; any other leaves disk and cache as they are |
| LogRuns.Change | CS_537_P2/src/log.c:204-233 | a block read, changed, passed to log_write and released shows its new contents to everyone and stays pinned until the commit; it fails only when more than NBUF - 2 blocks are logged |
| LogRuns.Serve | CS_537_P2/src/log.c:125-233 | any sequence of begin_op, changes of blocks and end_op leaves the log, the cache and the disk as a store that commits whole groups, and every disk image on the way recovers to one of its commits, in their order; it stops early only when a group has changed more than NBUF - 2 blocks |
| LogRuns.Boot | CS_537_P2/src/log.c:50-122 | the same from any disk with a sound log: recovery first, its images included |
| RedoLog.Log.RecoverFromLog | CS_537_P2/src/log.c:115-122 | always ends and leaves the recovered store with an empty log, and every image a further crash could leave recovers to the same store |
| Monitor.LocksStep | CS_537_P2/src/proc.c:417-447 | at most one process holds the monitor lock and at most one the table lock |
| Monitor.CoveredStep | CS_537_P2/src/proc.c:417-474 | a process on its way to sleep is covered: whoever makes its condition true owes a wakeup on its channel |
| Monitor.NoLostWakeup | CS_537_P2/src/proc.c:417-474 | with the lock free and nothing owed, nobody sleeps whose condition holds |
| Monitor.InternalFrame | CS_537_P2/src/proc.c:453-474 | the inner steps of sleep and wakeup change no shared data |
| SleepLock.RunOk | CS_537_P2/src/sleeplock.c:22-42 | every run of acquiresleep and releasesleep keeps the monitor discipline |
| SleepLock.SleepLockSafety | CS_537_P2/src/sleeplock.c:22-42 | in every reachable state at most one process owns the lock, and with the spin lock free nobody sleeps on a free lock |
| Pipe.Occupancy | CS_537_P2/src/pipe.c:78-97 | the 32-bit counters differ by the number of bytes in the ring, across wrap-around, and the full and empty tests are exact |
| Pipe.PutFifo | CS_537_P2/src/pipe.c:91-92 | storing a byte appends it to the stored sequence and keeps the ring's backlog |
| Pipe.TakeFifo | CS_537_P2/src/pipe.c:112-116 | taking a byte delivers the oldest undelivered one |
| Pipe.PipeFifo | CS_537_P2/src/pipe.c:78-121 | over any run with any readers and writers, the bytes delivered are a prefix of the bytes stored and the backlog never exceeds PIPESIZE; PipeCalls ties both to the callers |
| PipeCalls.ReadReturns | CS_537_P2/src/pipe.c:100-121 | in every run a piperead of m bytes returns, in order, exactly the bytes delivered since the read that returned before it: at most m, fewer only when it leaves the pipe empty, none only when the write end is closed; it fails only when its process is killed at an empty, open pipe, and then takes nothing |
| PipeCalls.WriteReturns | CS_537_P2/src/pipe.c:78-98 | in every run a pipewrite that succeeds has stored exactly its source, in order, whatever other writers do; one that fails has stored a proper part from the start and found the pipe full with the read end closed or its process killed |
| PipeCalls.ClosedExactly | CS_537_P2/src/pipe.c:59-75 | in every run, with the lock free, an end is closed if and only if pipeclose was called for it |
| PipeWakeup.RunOk | CS_537_P2/src/pipe.c:59-121 | every run without a stranding step keeps the wakeup discipline on both channels |
| PipeWakeup.WritersWoken | CS_537_P2/src/pipe.c:78-121 | in every run, no writer sleeps on a pipe with room or without readers while the locks are free |
| PipeWakeup.ReadersWoken | CS_537_P2/src/pipe.c:59-121 | in every run without a killed writer's exit past a sleeping reader, no reader sleeps on a pipe with bytes or without writers while the locks are free |
| PipeWakeup.ReadersWokenUnlessKilled | CS_537_P2/src/pipe.c:59-121 | in particular in every run in which no process is killed |
| PipeWakeup.StrandsExactly | CS_537_P2/src/pipe.c:78-121 | a run comes to a state with the lock free and a reader dozing beside data or a closed write end if and only if one of its steps is a killed writer's exit from a full pipe while a reader is dozing |
| PipeWakeup.StrandsStick | CS_537_P2/src/pipe.c:84-88 | every such exit, in any run, leaves the reader dozing beside a full pipe with the lock free |
| PipeWakeup.ReaderCanBeStranded | CS_537_P2/src/pipe.c:84-88 | such a run exists for every data that overfills the ring: the reader sleeps beside a full pipe |
| FsLayout.FlipBit | CS_537_P2/src/fs.c:56-95 | adding or removing a bit's mask changes that bit of the byte and no other |
| Ownership.AllocateOwned | CS_537_P2/src/fs.c:56-78 | marking and zeroing a free block keeps every block owned exactly once |
| Ownership.LinkAddr | CS_537_P2/src/fs.c:378-382 | hanging a fresh block on a direct slot keeps single ownership |
| Ownership.LinkEntry | CS_537_P2/src/fs.c:386-396 | hanging a fresh block on an indirect slot keeps single ownership |
| Ownership.WriteData | CS_537_P2/src/fs.c:500-504 | writing file bytes changes no pointer and no bitmap bit |
| Ownership.FreeLoose | CS_537_P2/src/fs.c:80-95 | freeing an unlinked block leaves the set bits exactly the metadata and the reachable blocks |
| Ownership.Rebase | CS_537_P2/src/fs.c:220-237 | once an inode is written back, single ownership holds from the side of every other inode |
| Ownership.GoneExactly | CS_537_P2/src/fs.c:407-435 | the blocks truncation unlinks are exactly the inode's blocks |
| FileBytes.SpliceWrote | CS_537_P2/src/fs.c:500-504 | a copy into one block writes exactly that range of the file and no other file |
| FileBytes.ChunkNoHoles | CS_537_P2/src/fs.c:499-506 | each turn of the write loop keeps every block below the new size mapped |
| FileSystem.Fs.Balloc | CS_537_P2/src/fs.c:56-78 | returns the lowest free block, marked and zeroed, or finds the disk full |
| FileSystem.Fs.Bfree | CS_537_P2/src/fs.c:80-95 | clears exactly that bit, and panics exactly when it was clear |
| FileSystem.Fs.Bmap | CS_537_P2/src/fs.c:372-400 | returns the file's block, allocating it and the indirect block when missing, with every file's bytes and single ownership kept |
| FileSystem.Fs.Iupdate | CS_537_P2/src/fs.c:220-237 | the on-disk inode becomes the in-memory one, all other inodes and all contents unchanged |
| FileSystem.Fs.Itrunc | CS_537_P2/src/fs.c:407-435 | frees exactly the inode's blocks, never reaching the double-free panic, other files unchanged; it logs exactly the inode's block and the bitmap blocks of its blocks, and changes no others |
| FileSystem.Fs.Readi | CS_537_P2/src/fs.c:452-478 | returns exactly the file's bytes in range, cut at its size, and changes nothing |
| FileSystem.Fs.Writei | CS_537_P2/src/fs.c:481-511 | overlays exactly the range, grows the size to the maximum, keeps the inode synced and unholed and every other file with its bytes and pointers; all blocks changed are logged, and all blocks logged lie in a set of at most the write's cost |
| FileSystem.WroteOverlay | CS_537_P2/src/fs.c:481-511 | the blockwise effect of the write loop is the overlay of the flat byte array |
| FileSystem.CostBound | CS_537_P2/src/fs.c:481-511 | the set of all blocks a write logs, whatever was logged before, is bounded by data blocks touched, bitmap blocks, indirect block and inode block |
| FileWrite.ChunkFits | CS_537_P2/src/file.c:128-145 | every chunk at every offset costs at most MAXOPBLOCKS, and three fewer when the bitmap is one block |
| FileWrite.TruncFits | CS_537_P2/src/fs.c:407-435 | truncation fits the log if and only if the inode's blocks lie under at most MAXOPBLOCKS - 2 bitmap blocks, as they do on every disk of less than (MAXOPBLOCKS - 2) * BPB blocks |
| FileWrite.Filewrite | CS_537_P2/src/file.c:117-156 | writes the whole buffer as one overlay at the offset, or stops after whole chunks, with an error exactly when it cannot fit a file; every transaction changes only what it logs, logs at most MAXOPBLOCKS blocks in all, and leaves the file with the chunks so far, every other file alone, and ownership, bitmap and mapping sound if they were |
| FileRuns.Load | CS_537_P2/src/fs.c:287-313 | ilock of any inode of a sound disk yields an inode ready for reading and writing |
| FileRuns.Serve | CS_537_P2/src/fs.c:407-511 | any sequence of reads, writes and truncations of any files answers as byte arrays would and leaves every file as they would be, every block owned once and no file with a hole; it stops early only on a full disk |
| DurableWrite.SomeStores | CS_537_P2/src/file.c:128-145 | the disks a write passes through are made by stores to the blocks its transactions log |
| DurableWrite.SameWhole | CS_537_P2/src/fs.c:56-435 | ownership, bitmap and mapping depend on inode, bitmap and data blocks alone, so they survive whatever the log area holds |
| DurableWrite.CrashDuringWrite | CS_537_P2/src/file.c:117-156 | wherever the machine stops during a write, and however often during recovery, recovery yields the old file with a whole number of chunks of the write over it, every other file as it was, and a disk with single ownership, exact bitmap and no holes if it was so before |
| DurableWrite.FinishedWriteStays | CS_537_P2/src/file.c:117-156 | once its last transaction has left the log, the whole write is there after any further crashes |
| FreeList.Unlink | CS_537_P2/src/umalloc.c:74-81 | taking a block out leaves a circular, ordered, coalesced list with that many fewer units |
| FreeList.Link | CS_537_P2/src/umalloc.c:30-43 | putting a block between its neighbours keeps the list circular, ordered and coalesced |
| Umalloc.LapCovers | CS_537_P2/src/umalloc.c:73-90 | one lap from the current block visits every block of the list |
| Umalloc.Process.Sbrk | CS_537_P2/src/sysproc.c:39-51 | the address before, and the memory there is afterwards, for positive, zero and negative arguments as growproc treats them |
| Umalloc.MallocExact | CS_537_P2/src/umalloc.c:63-90 | the block found or cut from new core holds nbytes and lies in the process's memory if and only if nbytes <= 2^31 - 16 |
| Umalloc.NothingAskedFor | CS_537_P2/src/umalloc.c:46-60 | for 2^32 - 8 bytes morecore passes 0 to sbrk, which succeeds and adds nothing |
| Umalloc.HugeMalloc | CS_537_P2/src/umalloc.c:46-90 | malloc(2^32 - 8) ends the process exactly when its last page has no room for a header, and else returns a block with no memory behind it |
| Umalloc.Heap.FindSlot | CS_537_P2/src/umalloc.c:30-32 | free's search always ends, at the block's neighbours |
| Umalloc.Heap.Free | CS_537_P2/src/umalloc.c:24-44 | the block leaves the live set, its bytes and no others become free, the list stays ordered, circular and fully coalesced, and all stays within memory |
| Umalloc.Heap.Morecore | CS_537_P2/src/umalloc.c:46-60 | asks sbrk for the units in wrapped, signed 32-bit arithmetic; what it answers joins the list, coalesced, or nothing changes; storing the header faults exactly when it lies past the last page |
| Umalloc.Heap.OneLap | CS_537_P2/src/umalloc.c:73-90 | one lap finds a block that fits if and only if there is one |
| Umalloc.Heap.Search | CS_537_P2/src/umalloc.c:73-90 | ends after one lap and at most one morecore, with a block cut from the free bytes |
| Umalloc.Heap.Malloc | CS_537_P2/src/umalloc.c:63-90 | hands out a block of the asked units, off the free list and clear of every live block, with free, live and obtained units in balance; null exactly when no free block fits and sbrk refuses; a fault exactly when sbrk grants an address past the last page; the block holds nbytes and every block has memory behind it if and only if nbytes <= 2^31 - 16, and up to there all stays within memory whatever the answer |
| HeapRuns.Play | CS_537_P2/src/umalloc.c:24-90 | any sequence of malloc of at most 2^31 - 16 bytes and of free of held pieces keeps the heap sound and within memory; the pieces held are those answered and not freed, each with its bytes, apart from each other and from the free list |
| Grep.ParseExact | CS_537_P2/src/grep.c:72-106 | the items of a pattern are the one sequence that is written as the pattern and in which no item could be read as another |
| Grep.Match | CS_537_P2/src/grep.c:72-82 | holds if and only if some stretch of the text (a prefix under ^) splits into pieces matching the parsed pattern |
| Grep.MatchHere | CS_537_P2/src/grep.c:85-96 | holds if and only if the pattern accepts the text from here |
| Grep.MatchStar | CS_537_P2/src/grep.c:98-106 | holds if and only if some run of the starred character leaves an accepted rest |
| Shell.NextToken | CS_537_P2/src/sh.c:265-308 | the token at the cursor, its text and the cursor after it, as the grammar defines them |
| Shell.ParseRedirs | CS_537_P2/src/sh.c:374-397 | the loop computes the grammar's redirections, the first innermost |
| Shell.ParseExec | CS_537_P2/src/sh.c:415-446 | the argument loop computes the simple command at the cursor, or a panic, on every input; ShellGrammar says which one |
| Shell.ParseLine | CS_537_P2/src/sh.c:344-358 | the mutual recursion ends on every input with the command line at the cursor or a syntax panic |
| ShellGrammar.LexExact | CS_537_P2/src/sh.c:265-308 | the tokens of a line are the only ones that spell it: words, marks and any blanks, no two words and no two output marks run together |
| ShellGrammar.ScriptWritten | CS_537_P2/src/sh.c:344-446 | reading undoes writing: the tokens of every script are read back as that script, up to whatever may follow it |
| ShellGrammar.Unambiguous | CS_537_P2/src/sh.c:344-446 | no token sequence is written by two scripts |
| ShellGrammar.ArgsAgree | CS_537_P2/src/sh.c:430-446 | the argument loop, from any point, gives the words read and still to come, under the redirections read and still to come in their order, the first innermost |
| ShellGrammar.ScriptAgree | CS_537_P2/src/sh.c:344-446 | from any cursor the parser gives the command of the script that the tokens from there on spell, and stops where it ends, or both fail |
| ShellGrammar.ParsesScripts | CS_537_P2/src/sh.c:327-446 | every script, in any spacing, with words and redirections in any order, parses to the command it stands for: pipes and lists to the right, each & once more in the background |
| ShellGrammar.ParsedIsScript | CS_537_P2/src/sh.c:327-446 | every accepted line is such a script in some spacing |
| ShellGrammar.GrammarExact | CS_537_P2/src/sh.c:327-446 | the shell parses a line as a command if and only if the line spells a script that stands for that command |
| ShellTrees.LineTokens | CS_537_P2/src/sh.c:344-446 | every string of every parsed command is one whole word of the line, with at most MAXARGS - 1 arguments |
| ShellTrees.ParserRoundTrip | CS_537_P2/src/sh.c:327-446 | parsing the canonical printing of any well-formed command returns that command |
| ShellTrees.CanonicalForm | CS_537_P2/src/sh.c:327-446 | every accepted line parses to the same command as its canonical printing |
| ShellTrees.PrintInjective | CS_537_P2/src/sh.c:327-446 | different commands have different canonical printings |
| ShellBuffer.NulTerminate | CS_537_P2/src/sh.c:448-493 | writes NULs exactly after the strings of the tree |
| ShellBuffer.AllRead | CS_537_P2/src/sh.c:448-493 | after those writes every string, read up to its NUL, is exactly its token's text |
| ShellBuffer.ParseCommand | CS_537_P2/src/sh.c:327-342 | accepts exactly the lines of the grammar, and leaves in the buffer the strings of the command they mean |
| Paging.ViewSet | CS_537_P2/src/vm.c:35-80 | writing one table entry changes the mapping of one page |
| Paging.ViewAdd | CS_537_P2/src/vm.c:44-53 | a new zeroed table changes no mapping |
| Paging.Hardware | CS_537_P2/src/vm.c:35-55 | the processor's walk through both levels gives every address the frame and the rights of its page table entry alone, because every table is present, writable and open to the user |
| Paging.DropAbsent | CS_537_P2/src/vm.c:266-268 | absent pages may be passed over without changing what a page-by-page release does |
| Paging.DropUsers | CS_537_P2/src/vm.c:255-279 | a page-by-page release moves exactly the frames of those pages to the free list |
| VirtualMemory.RowFills | CS_537_P2/src/vm.c:105-115 | the rows of kmap do not overlap and together make the kernel's mapping |
| VirtualMemory.UndoAdded | CS_537_P2/src/vm.c:234-246 | releasing the range again takes away every user page that was added and no other |
| VirtualMemory.CopyStep | CS_537_P2/src/vm.c:325-339 | a copied page keeps contents and flags while later pages are copied |
| VirtualMemory.Machine.FreeRange | CS_537_P2/src/kalloc.c:46-53 | exactly the whole pages of the range become free |
| VirtualMemory.Machine.Kalloc | CS_537_P2/src/kalloc.c:82-95 | takes the first frame of the list threaded through the free frames |
| VirtualMemory.Machine.Kfree | CS_537_P2/src/kalloc.c:59-77 | puts the frame in front of the list and changes no other frame |
| VirtualMemory.Machine.Walk | CS_537_P2/src/vm.c:35-55 | finds the table of a page, or adds an empty one from a free frame, without changing any mapping; every table is open to the user and to writing |
| VirtualMemory.Machine.MapPages | CS_537_P2/src/vm.c:60-80 | maps exactly the range, or a prefix of it when no frame is left for a table |
| VirtualMemory.Machine.Dealloc | CS_537_P2/src/vm.c:255-279 | with its skip over absent tables, leaves the mapping, the frames and the free list that a page-by-page loop would; every address of the range leads nowhere and every other where it did |
| VirtualMemory.Machine.FreeVm | CS_537_P2/src/vm.c:283-298 | gives back exactly the frames of the address space |
| VirtualMemory.Machine.SetupKvm | CS_537_P2/src/vm.c:118-136 | the kernel's mapping in fresh frames, as the processor sees it: no address is open to the user, kernel text is not writable, the rest of kernel memory and the devices are; or, only when frames run out, exactly the free frames there were |
| VirtualMemory.Machine.Alloc | CS_537_P2/src/vm.c:221-249 | adds zeroed pages in fresh frames for the range, which the user can read and write as the processor sees it, every other address leading where it did; or, only above KERNBASE or when frames run out, leaves the mapping unchanged |
| VirtualMemory.Machine.CopyUvm | CS_537_P2/src/vm.c:315-345 | a child in which every user address leads, with the parent's rights, to a copy of the parent's page in a frame that was free, and every kernel address where the kernel's mapping does; or, only when frames run out, exactly the free frames there were; the parent unchanged |
| Scheduler.SelectBatch | CS_537_P4/proc.c:352-378 | the batch is exactly the runnable processes of least priority value, in table order |
| Scheduler.BatchUnique | CS_537_P4/proc.c:366-378 | a process table has one such batch |
| Scheduler.DecayScan | CS_537_P4/proc.c:354-363 | the loop halves the use of every process and sets its priority to half of that, truncated as in C, plus nice |
| Scheduler.DecayBatch | CS_537_P4/proc.c:354-378 | after a decay a process is in the batch if and only if it is runnable and its use, halved twice, plus nice is least among the runnable |
| Scheduler.NeverEarlier | CS_537_P4/proc.c:354-378 | having run more or being nicer never brings a process to run earlier and never holds back another |
| Scheduler.DecayingPass | CS_537_P4/proc.c:339-378 | the law of the decay in every state that any run from boot reaches, on any number of processors |
| Scheduler.DispatchLaw | CS_537_P4/proc.c:387-405 | a dispatch marks the process running and adds one to its use, and touches no other |
| Scheduler.ForkLaw | CS_537_P4/proc.c:77-228 | a fork that succeeds makes one runnable child of its caller in the lowest free slot with a pid never used |
| Scheduler.ExitLaw | CS_537_P4/proc.c:237-281 | exit gives every child to init, makes the process a zombie and wakes every sleeper once and once more per zombie child; nothing else changes |
| Scheduler.WaitScan | CS_537_P4/proc.c:285-325 | finds the first zombie child, and without one tells exactly whether there are children |
| Scheduler.WaitLaw | CS_537_P4/proc.c:285-316 | wait frees exactly the first zombie child of its caller |
| Scheduler.LeaveLaw | CS_537_P4/proc.c:436-502 | yield leaves its caller runnable and sleep asleep, and neither touches another process |
| Scheduler.KillScan | CS_537_P4/proc.c:536-556 | wakes the first process with the pid if it sleeps, and answers whether there is one |
| Scheduler.KillLaw | CS_537_P4/proc.c:536-556 | in every run kill finds the one process with that pid, makes it runnable if it sleeps and touches no other |
| Scheduler.SleepLaw | CS_537_P4/sysproc.c:56-78 | a process that asks to sleep for n is asleep through n wakeups on any channels and runnable after the next; for n below 0 no wakeup ends its sleep |
| Scheduler.NiceLaw | CS_537_P4/proc.c:594-605 | nice sets values from 0 to 20, refuses others, and touches no other process |
| Scheduler.RunTable | CS_537_P4/proc.c:77-325 | in every run no two processes share a pid, new pids are new, and no use is negative |
| Scheduler.BeforeKeeps | CS_537_P4/proc.c:189-555 | whatever the running process does through fork, exit, wait, kill, sleep, wakeup or yield, every runnable process stays runnable and no other process is marked running |
| Scheduler.StepGood | CS_537_P4/proc.c:387-405 | with one processor, each step dispatches only a runnable process and keeps the rest of the batch runnable |
| Scheduler.OneCpu | CS_537_P4/proc.c:339-408 | over every run from boot on one processor, every dispatch finds its process runnable |
| Scheduler.TwoCpus | CS_537_P4/proc.c:387-405 | a run from boot on any two or more processors that dispatches a process another processor is running |
| Scheduler.SafeExactly | CS_537_P4/proc.c:339-408 | dispatching is safe in all runs if and only if there is at most one processor |
| PriorityQueue.Queue.Insert | CS_537_P6/starter-code/safequeue.c:11-35 | splices the item after all items of at least its priority, keeping the list linked, sorted and within capacity and its history sound; refuses exactly when full |
| PriorityQueue.Queue.Remove | CS_537_P6/starter-code/safequeue.c:38-51 | takes the first item, which is the job ahead of all others in the history, and leaves the rest in order |
| PriorityQueue.QueueRuns | CS_537_P6/starter-code/safequeue.c:11-51 | over every run the queue is ordered by priority and then arrival, and jobs accepted are jobs removed plus jobs queued |
| PriorityQueue.TakesTheBest | CS_537_P6/starter-code/safequeue.c:38-51 | each job taken has maximum priority, and among equals the earliest arrival |
| PriorityQueue.Play | CS_537_P6/starter-code/safequeue.c:11-51 | any sequence of calls on the linked list delivers the jobs of that run, in its order |
| WfsTree.PathsUnique | CS_537_P7/mount.wfs.c:97-142 | in a file tree no two paths lead to the same inode |
| WfsTree.CreatePaths | CS_537_P7/mount.wfs.c:187-350 | creating a path makes that path, and every other path leads where it did |
| WfsTree.CreateOkExactly | CS_537_P7/mount.wfs.c:187-350 | the result is a file tree if and only if the name was new |
| WfsTree.CreateTwice | CS_537_P7/mount.wfs.c:190-193 | creating a name that exists leaves it leading to the old inode |
| WfsTree.UnlinkPaths | CS_537_P7/mount.wfs.c:471-548 | the path and all below it are gone, and every other path leads where it did |
| WfsTree.UnlinkOk | CS_537_P7/mount.wfs.c:471-548 | unlinking keeps a file tree |
| WfsLog.TiledSnoc | CS_537_P7/mount.wfs.c:232-258 | writing an entry at head extends the tiling of the disk |
| WfsLog.ReplayMark | CS_537_P7/mount.wfs.c:540-542 | marking the last entry of an inode deleted takes that inode, and nothing else, out of the replayed tree |
| WfsLog.TableLive | CS_537_P7/mount.wfs.c:74-79 | after a scan, all_le is nonzero exactly for the live inodes |
| Wfs.Disk.constructor | CS_537_P7/mkfs.wfs.c:12-41 | a new disk tiles, lies within its file and replays to an empty root directory |
| Wfs.Disk.GetNumber | CS_537_P7/mount.wfs.c:57-95 | the scan finds the inode's last entry, null exactly when the inode is not live, and rebuilds all_le |
| Wfs.Disk.GetPath | CS_537_P7/mount.wfs.c:97-142 | finds the entry of the inode the path leads to, null exactly when it leads nowhere |
| Wfs.Disk.Create | CS_537_P7/mount.wfs.c:187-350 | refines creation in the tree, under the least free inode number, if and only if both new entries end within the disk and a number is free; a new name, cut to 31 characters, then leads to an empty directory after mkdir and to an empty file after mknod, every other path where it did; stores outside the disk exactly when one header fits and the entries do not; the result is a tree if and only if the name was new |
| Wfs.Disk.Write | CS_537_P7/mount.wfs.c:389-445 | refines the overlay of the file's bytes, every other path leading where it did, with the exact errors and the exact space used; stores outside the disk exactly when not even a header fits, because the header is copied before the check |
| Wfs.Disk.Read | CS_537_P7/mount.wfs.c:352-387 | returns exactly the bytes in range of the file the path leads to |
| Wfs.Disk.Unlink | CS_537_P7/mount.wfs.c:471-548 | the path and all below it lead nowhere and every other path where it did, with the exact space used, if and only if the path exists and the new directory entry ends within the disk; stores outside the disk otherwise |
| Wfs.CreateOverruns | CS_537_P7/mount.wfs.c:225-228 | on an empty disk with room for one header creation passes its check and stores outside |
| Wfs.UnlinkOverruns | CS_537_P7/mount.wfs.c:499-538 | a file that just fits is created, and unlinking it stores outside |
| Wfs.CreateFiles | CS_537_P7/mount.wfs.c:187-350 | after creation the new path leads to the new directory or file and every other path to what it led to |
| Wfs.WriteFiles | CS_537_P7/mount.wfs.c:389-445 | after a write the named file has the written bytes and every other path leads to what it led to |
| Wfs.UnlinkFiles | CS_537_P7/mount.wfs.c:471-548 | after unlinking, the paths at or below the named one lead nowhere and every other to what it led to |
| WfsRuns.Serve | CS_537_P7/mount.wfs.c:187-548 | one call of mkdir, mknod, write, read or unlink on a disk that shows a table of paths answers as the table does and leaves the disk showing the table after it |
| WfsRuns.Play | CS_537_P7/mount.wfs.c:187-548 | from mkfs on, any sequence of these calls is answered as a table of paths would answer it, and the disk shows that table, up to a call that stores outside the disk, finds no inode number or makes a path that exists |

## Left out

- LogSafety.CrashAtomicity: a disk write is atomic per block, as in memide.c; torn sector writes are not modelled.
- RedoLog.Log.Commit: runs with nobody else referring to a buffer, without interference from other processes; interleavings are the subject of LogProtocol and LogSafety.
- RedoLog.Log.WriteHead: as for Commit, nobody else refers to a buffer.
- RedoLog.Log.WriteLog: as for Commit, nobody else refers to a buffer.
- RedoLog.Log.InstallTrans: as for Commit, nobody else refers to a buffer.
- RedoLog.Log.EndOp: as for Commit, nobody else refers to a buffer when the last operation ends.
- LogRuns.Serve: a block is read, changed, logged and released in one piece; begin_op that has to wait is a call without effect.
- BufferCache.Cache.Bread: waiting for a block that another process has locked is not modelled here; SleepLock is about that wait.
- BufferCache.Cache.Bget: the panic when no buffer is free is a result value, and the device number is fixed, because all buffers start as block 0 of device 0 and only the root device is used.
- FileSystem.Fs.Writei: device inodes and their switch table are not modelled, and the initial absence of holes is assumed, since mkfs can write a root directory whose size covers an unmapped block; a write that fills a hole does not write the inode back.
- FileSystem.Fs.Readi: the absence of holes is assumed, as for Writei, which keeps it.
- DurableWrite.CrashDuringWrite: the write is the only file system call of the run; calls of other processes in the same commit are the subject of CrashAtomicity.
- LogLimit.AtomicityExact: for logs longer than mkfs makes, only the sufficient condition is proved, in CrashAtomicity; past LOGSIZE entries the code overruns its own header array.
- Umalloc.Heap.Malloc: whether the kernel finds frames for a request is a parameter.
- Umalloc.Heap.Morecore: the comparisons of addresses in free do not wrap for a block with no memory behind it; they could only if the static list head lay in the last page of the process.
- ShellBuffer.ParseCommand: running out of heap in the constructors of commands is not modelled, and a panic is the value None.
- VirtualMemory.Machine.Alloc: the pages to be added must be absent before, as mappages demands by its panic.
- VirtualMemory.Machine.MapPages: addresses and sizes are whole pages, as in all its callers.
- VirtualMemory.Machine.CopyUvm: failure is shown to need few free frames, by a bound of one table per directory entry, not the exact number of tables.
- Scheduler.OneCpu: the killed flag, channels and user memory are not part of the process table, as none of them decides what is dispatched; pids and use are counted without wrapping round.
- Scheduler.ExitLaw: exit by init is left out, since it panics.
- PipeCalls.WriteReturns: a pipe freed when both ends are closed is not followed further.
- WfsRuns.Play: a call whose path leads through a file is not passed on, as the kernel's own path walk ensures.
- Wfs.Disk.Create: nothing is said of the disk after a store outside it, or after creation without a free inode number, when the code keeps whatever bytes the disk held.
- Wfs.Disk.GetPath: paths are lists of components, entries are headers with typed data instead of raw bytes, and no component but the last may be asked of a file, which the kernel's own path walk ensures.
- Wfs.Disk.Write: the header that a write refused for space leaves at head is not modelled; it lies past the log.
- Wfs.Disk.Unlink: nothing is said of the disk after a store outside it.
- PriorityQueue.Queue.Remove: waiting on the condition variable is a precondition, and each locked body is one step.
- Directories, path names, the inode cache's reference counts, inode allocation, exec, system calls and traps.
- inituvm, loaduvm, clearpteu and switching address spaces.
- The physical devices, booting, the console and interrupts.
- The grep read loop and runcmd: input and output.
- The page cache and mmap of CS_537_P5, the checker fsck.wfs.c of CS_537_P7, and the shells and utilities of CS_537_P1 and CS_537_P3.
