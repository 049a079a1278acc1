# Verified models of an xv6 kernel with agents

The repository is an xv6 kernel and its user programs, extended with mechanisms for language-model
agents: a response cache, a verifier for proposed fixes, and a proxy protocol over the console to a
host daemon. This project models its hardest parts in Dafny and proves what they are for.

| files | subject |
|---|---|
| `Blocks`, `CrashRecovery`, `LogSpace`, `LruRing`, `BufferCache`, `CommitPhase`, `LogRecovery`, `Log`, `CommitCode` | the redo log, its space, the buffer cache with pinning, commits among readers, crash atomicity |
| `Bitmap`, `FileBlocks`, `FileSystem` | block allocation, block mapping, reading, writing, truncating |
| `FileDisk`, `FileTransactions` | files as they lie on disk, filewrite run against the log, what a stop leaves of the files |
| `PageTables`, `VirtualMemory`, `TableTeardown`, `ProcessMemory` | frames, Sv39 tables against a flat map, copyin and copyout, sbrk, fork, exit |
| `SleepWakeup`, `SleepLock`, `Pipe`, `PipeProtocol`, `ProcessForest` | sleep and wakeup, sleeplocks, pipes, fork/exit/wait and dispatch |
| `ProxyFrames`, `ConsoleInput`, `ConsoleTyping`, `ProxyProtocol`, `ProxyTabs`, `ProxyClient` | request and response lines, the console's input ring, what a person types and sees, the whole protocol on one serial line, when it is safe, the client's loops |
| `MinHash`, `WordSets`, `CacheKey`, `CacheRecords`, `ResponseCache` | MinHash signatures, content words, keys, records as bytes, the two tiers of the cache over a file |
| `VerdictLoop` | the verifier, the checkpoint slot and the evaluator's retry loop |
| `Virtqueue`, `UserMalloc` | the disk driver's split virtqueue, the user-level allocator |
| `ShellGrammar`, `ShellSyntax`, `ShellParser`, `ShellText` | the shell's parser on tokens, the language it accepts, the cursor parser, lines as characters |
| `Counters`, `Counting` | wrapping counters and counting arguments used by several of these |

Objects whose fields the code updates are classes with the same operations; protocols are state machines
whose runs are all interleavings of small steps. Ghost fields hold what a proof needs and the program
does not have: which slot owns a block, what a frame is used for, which bytes have been sent.
`dafny verify dfyconfig.toml` checks everything.

Modelling choices that matter when reading a contract:

- One disk block write is atomic. Copies from or to user memory may fail at any piece; a parameter
  such as `fails` says where. What `sbrk`, the proxy handler and other processes do is a parameter or an
  arbitrary choice (`:= *`) too.
- `Log` and `BufferCache` work on one device. The newest version of every block is the ghost field `view`, the
  last committed version of the home blocks the ghost field `committed`. Get, Acquire, Load, Unlock, Put,
  Change, LogWrite and the Commit steps are steps of single processes, and each keeps `Inv`; commit() itself, in `CommitCode`, is the
  code's loops over these steps, with any number of steps of other processes before each of them. A bget panic
  or a wait that does not end leaves it in a state that satisfies `Inv`, and `Excused` says what caused it.
- `FileTransactions` runs filewrite on `FileSystem` and carries every block it touched through `Log`. A stop is any
  prefix of the disk writes made since boot, so every disk there was is covered, not only those at the exits.
- `ResponseCache` assumes nothing about the bytes of /cache.bin, which any process may write.
- `FileSystem` keeps the bitmap and the indirect blocks as the code does (bytes and 32-bit words); inodes are
  records there and words of their blocks in `FileDisk`.
- In `PageTables` an entry is zero, a pointer to a table or a leaf with its permissions; `Role` gives every frame its one use.
- `SleepWakeup` has a step for every lock operation of `sleep` and `wakeup`. `ProcessForest` takes critical
  sections of a process's own lock as steps, except where that lock is held across a context switch.
- Pids, ticket numbers and histories are unbounded; every counter whose wrap-around matters wraps explicitly.

Where code and comments disagree the code is followed. Points a reader may not expect, each proved:

- mkfs reserves 30 log blocks with the header, but the panic test allows 30 logged blocks. The region
  suffices exactly when an operation logs fewer blocks than it reserves (`LogSpace.LogRegionSuffices`).
- `malloc` passes its byte count to `sbrk` as an int: from 2^31 - 31 bytes on it gets less than it
  records (`UserMalloc.SbrkArgumentFits`); `Malloc` is stated for the sizes that fit.
- A writer killed between putting a byte in and announcing it returns without waking the reader
  (`PipeProtocol.KilledWriterLosesAWakeup`). Readers miss no wakeup in any run exactly when that cannot happen
  (`PipeProtocol.ReadersAreSafe`), and otherwise only until the next wakeup of readers ends (`PipeIsSafe`).
- The console echoes a response while other processes write. Eight echoed letters of PROXY_RES, a Q and a tab of
  another write are a request tag: the host takes the line for a request (`ProxyTabs.EchoCompletesATag`). The protocol is
  safe exactly when other lines have a byte outside the tag before their first tab (`SafeExactlyWithCoveredTabs`).
- A kill that comes between wait's look at `killed` and sleep's taking the process's lock is missed: the process
  sleeps until a child exits (`ProcessForest.KillIsMissed`), and no other kill is (`KillIsSeen`).
- The last error path of proc_pagetable is never taken: both kernel pages share their tables (`ProcessMemory.ProcPagetable`).
- A role with a bar in it shares its keys with the role before the bar (`CacheKey.BarIsAByte`).
- `cacheget` answers -1 to a prompt of 256 bytes or more, and `proxy_call` takes that for a hit: it returns what
  the caller's buffer held (`ResponseCache.Cache.Call`).
- `sbrk` downwards by more than the whole size succeeds and changes
  nothing (`ProcessMemory.Processes.Growproc`).
- Three amendments always suffice for a fix proposal, but the evaluator only tries three times, so it
  reaches acceptance exactly for at most two defects (`VerdictLoop.Evaluator.Retry`).

## Model

| member | source | states |
|---|---|---|
| `CrashRecovery.HeaderRoundTrip` | xv6-src/kernel/log.c:88-114 | a header block written by write_head is read back by read_head as the same list of block numbers |
| `CrashRecovery.RedoAbsorbs` | xv6-src/kernel/log.c:67-85 | redo is idempotent: replaying over any already replayed part gives the same contents |
| `CrashRecovery.UpdatedAt` | xv6-src/kernel/log.c:67-85 | with distinct targets every logged block ends with exactly its logged value |
| `CrashRecovery.CommitCrash` | xv6-src/kernel/log.c:180-207 | a crash after any number of the commit's writes recovers to the old homes before the header write and to the new ones after it |
| `CrashRecovery.RecoveryCrash` | xv6-src/kernel/log.c:67-124 | a recovery cut after any of its writes can be rerun with the same outcome |
| `CrashRecovery.RebootsReplay` | xv6-src/kernel/log.c:118-124 | any number of interrupted recoveries ends as one uninterrupted replay, with an empty log |
| `CrashRecovery.CrashAtomicity` | xv6-src/kernel/log.c:66-124 | crash at any write of commit, then any number of crashing recoveries: home blocks end all old or all new, decided by the header write |
| `LogSpace.StepKeepsInv` | xv6-src/kernel/log.c:128-176 | n plus the unused reservations of open operations stays within LOGBLOCKS at every begin, take, end and commit |
| `LogSpace.RunKeepsInv` | xv6-src/kernel/log.c:128-176 | the reservation invariant over every interleaving |
| `LogSpace.FillingRun` | xv6-src/kernel/log.c:216-236 | operations that log all ten blocks they reserved can bring n to LOGBLOCKS |
| `LogSpace.LogRegionSuffices` | xv6-src/mkfs/mkfs.c:35-37 | over all runs n stays below 30, so within the region mkfs lays out, if and only if an operation logs at most nine distinct blocks |
| `LruRing.Unlink` | xv6-src/kernel/bio.c:128-129 | taking a buffer out of the linked list leaves a circular list of exactly the others, in order |
| `LruRing.PushFront` | xv6-src/kernel/bio.c:130-133 | linking a buffer in after the head makes it the first of a circular list, the others following in order |
| `LruRing.MoveToFrontKeeps` | xv6-src/kernel/bio.c:126-134 | moving a buffer to the front loses and repeats none: the same buffers are in the list |
| `BufferCache.MoveToFrontOrder` | xv6-src/kernel/bio.c:117-137 | the released buffer becomes the most recently used and the order of the others stays |
| `BufferCache.WriteKeeps` | xv6-src/kernel/bio.c:107-113 | writing a buffer through changes no block's newest version |
| `BufferCache.HistoryExtends` | xv6-src/kernel/bio.c:107-113 | one more write recorded is one more write applied to the disk since boot |
| `BufferCache.RekeyKeeps` | xv6-src/kernel/bio.c:59-90 | re-keying a clean unreferenced buffer changes no block's newest version |
| `BufferCache.HistorySince` | xv6-src/kernel/bio.c:107-113 | the writes recorded since some point carry the disk from there to here |
| `BufferCache.Bcache.OneBufferPerBlock` | xv6-src/kernel/bio.c:43-90 | two claimed buffers never hold the same block |
| `BufferCache.Bcache.constructor` | xv6-src/kernel/bio.c:37-53 | binit links all NBUF buffers into one ring and the cache shows the disk |
| `BufferCache.Bcache.FindCached` | xv6-src/kernel/bio.c:59-73 | the first loop of bget finds the block's one buffer, or -1 exactly when it is not cached |
| `BufferCache.Bcache.FindUnused` | xv6-src/kernel/bio.c:75-88 | the second loop finds the least recently used buffer with no references, or -1 exactly when there is none |
| `BufferCache.Bcache.Claim` | xv6-src/kernel/bio.c:59-90 | bget claims the block's buffer or recycles the least recently used one, and panics exactly when it is not cached and all are referenced; every block's newest version and every other process's claims and locked buffers stay |
| `BufferCache.Bcache.Lock` | xv6-src/kernel/sleeplock.c:21-31 | the lock is granted exactly when nobody holds it; otherwise the caller waits and nothing changes |
| `BufferCache.Bcache.Bread` | xv6-src/kernel/bio.c:93-104 | a granted bread holds a valid buffer with the newest version of the block; one that is not granted leaves the caller waiting with its claim, exactly when another process holds the buffer |
| `BufferCache.Bcache.Bwrite` | xv6-src/kernel/bio.c:107-113 | bwrite puts exactly the buffer's contents on its disk block and records the write |
| `BufferCache.Bcache.Releasesleep` | xv6-src/kernel/bio.c:122-122 | the first half of brelse: the holder gives up the lock and keeps its claim; another process may take the lock at once |
| `BufferCache.Bcache.Drop` | xv6-src/kernel/bio.c:124-136 | the second half: the claim is dropped, whoever holds the lock by now; at the last reference the buffer becomes the most recently used, the others keep their order |
| `BufferCache.Bcache.Brelse` | xv6-src/kernel/bio.c:117-137 | brelse with nothing in between: the holder's claim and lock are gone and the ring reordered; contents, pins and other processes' buffers stay |
| `BufferCache.Bcache.Bpin` | xv6-src/kernel/bio.c:140-144 | a pinned buffer gains a reference and nothing else changes |
| `BufferCache.Bcache.Bunpin` | xv6-src/kernel/bio.c:147-151 | an unpinned buffer loses one reference and nothing else changes |
| `Log.Log.constructor` | xv6-src/kernel/log.c:54-64 | initlog replays the log on disk: its disk writes are exactly the recovery's, and the replayed homes are the committed version |
| `Log.Log.Get` | xv6-src/kernel/bio.c:59-90 | a claim by any process, in or out of an operation or a commit, keeps pins, newest versions, disk and every other process's buffers; the panic is exact |
| `Log.Log.Acquire` | xv6-src/kernel/sleeplock.c:21-31 | any process gets a buffer's lock exactly when it is free, at any point of a commit |
| `Log.Log.Load` | xv6-src/kernel/bio.c:93-104 | whoever holds a buffer sees the newest version of its block, at any point of a commit |
| `Log.Log.Unlock` | xv6-src/kernel/bio.c:122-122 | any holder, at any point of a commit, may give up its lock: pins, newest versions, disk and every other process's buffers stay |
| `Log.Log.Put` | xv6-src/kernel/bio.c:124-136 | any process, at any point of a commit, may drop its claim, whoever has the lock by then: pins, newest versions, disk and every other process's buffers stay |
| `CommitPhase.WriteInCommit` | xv6-src/kernel/log.c:195-207 | the next write of a commit keeps the write history, the disk block by block and the committed version; the full header's write is the one that changes the committed version |
| `CommitPhase.HomeInCommit` | xv6-src/kernel/log.c:66-85 | at every write of a commit each home block is on disk in its committed version, or still the one before with the committed one in its log slot |
| `CommitPhase.CrashInCommit` | xv6-src/kernel/log.c:195-207 | a crash between any two steps of a commit, and any number of crashing recoveries, bring back the committed version of every home block |
| `LogRecovery.ReadHead` | xv6-src/kernel/log.c:88-98 | the in-memory header is the list of blocks the on-disk header names |
| `LogRecovery.HeaderImage` | xv6-src/kernel/log.c:104-115 | write_head's loop makes the header block that names exactly the in-memory list |
| `LogRecovery.InstallTrans` | xv6-src/kernel/log.c:67-85 | install_trans(1) writes exactly the slots' contents to the homes, in header order |
| `LogRecovery.RecoverFromLog` | xv6-src/kernel/log.c:117-124 | booting makes exactly the recovery's disk writes, ends with the replayed homes and an empty log |
| `CommitCode.BreadAs` | xv6-src/kernel/bio.c:59-104 | bread among any steps of others: a valid buffer with the newest version, locked; the panic means every buffer is in use, and a wait that another process has the lock |
| `CommitCode.WriteLog` | xv6-src/kernel/log.c:180-192 | with any steps of other processes in between, the commit's first n writes are the logged blocks' newest versions, slot by slot; the buffers claimed are released |
| `CommitCode.WriteHead` | xv6-src/kernel/log.c:104-115 | with any steps of other processes in between, one write: the header that names the transaction, or the empty one |
| `CommitCode.InstallTrans` | xv6-src/kernel/log.c:67-85 | with any steps of other processes in between, the next n writes put every logged block home in order, each unpinned once installed |
| `CommitCode.Commit` | xv6-src/kernel/log.c:195-207 | with any steps of other processes between any two of its own, commit makes all its writes in order and no other, and releases what it claimed; it stops short only in the bget panic with every buffer in use, or waiting for a buffer that another process has locked |
| `Log.Log.BeginOp` | xv6-src/kernel/log.c:128-145 | an operation starts exactly when no commit runs and ten more blocks fit beside all open reservations |
| `Log.Log.Change` | xv6-src/kernel/log.c:209-236 | a process in an operation changes a home block it holds: the newest version changes, the disk and the committed version do not |
| `Log.Log.LogWrite` | xv6-src/kernel/log.c:216-236 | a block is logged once per transaction and pinned; neither panic is reachable within the reservation |
| `Log.Log.ReservationSuffices` | xv6-src/kernel/log.c:128-145 | an operation all of whose blocks lie in a set of at most nine can always log the next one |
| `Log.Log.EndOp` | xv6-src/kernel/log.c:148-167 | the last operation out must commit, and only it; the commit takes every logged block in its newest version |
| `Log.Log.CommitWrite` | xv6-src/kernel/log.c:180-207 | a bwrite of the committer that is the commit's next write keeps the invariant; the full header's write makes the newest version the committed one |
| `Log.Log.CommitUnpin` | xv6-src/kernel/log.c:79-80 | the block just installed loses its pin and is clean, so it may be recycled |
| `CommitCode.FinishCommit` | xv6-src/kernel/log.c:169-176 | a commit that ends has made exactly the crash model's writes of its transaction; every home block is on disk, in memory and committed in the version it had when the commit began, whatever other processes read meanwhile |
| `Log.Log.NothingUncommittedOnDisk` | xv6-src/kernel/log.c:195-236 | in every state each home block is on disk in the last committed version, or waits in the log to be installed in it; a logged block sits in exactly one buffer, valid, pinned once, with its newest version; every other block is the same in memory and on disk unless its holder is changing it |
| `Log.Log.TransactionIsAtomic` | xv6-src/kernel/log.c:195-207 | a stop in any state, at any write of a commit and with any readers about, and then in any number of recoveries, brings every home block back in its last committed version |
| `Bitmap.OneBitChanges` | xv6-src/kernel/fs.c:75-103 | setting or clearing one bit of a bitmap byte changes that bit and no other |
| `FileBlocks.OneReference` | xv6-src/kernel/fs.c:406-441 | an address is held by at most one slot of one inode |
| `FileBlocks.ChunkShows` | xv6-src/kernel/fs.c:540-553 | bytes copied into one block of a file show at their offset and nowhere else |
| `FileBlocks.AttachInIndirect` | xv6-src/kernel/fs.c:421-440 | entering an address in an indirect block changes exactly that address of that inode |
| `FileBlocks.SpliceTwice` | xv6-src/kernel/file.c:148-169 | writing one piece after another is writing both at once |
| `FileSystem.FileSystem.constructor` | xv6-src/mkfs/mkfs.c:258-271 | a fresh file system: metadata blocks marked, all others free, every inode empty |
| `FileSystem.FileSystem.FindFree` | xv6-src/kernel/fs.c:67-88 | the lowest free block, or 0 exactly when there is none; block 0 is never returned as free |
| `FileSystem.FileSystem.Balloc` | xv6-src/kernel/fs.c:67-89 | the lowest free block, zeroed and marked, with its bitmap block and itself logged; 0 exactly when the disk is full |
| `FileSystem.FileSystem.Bfree` | xv6-src/kernel/fs.c:93-106 | clears exactly the block's bit; fails exactly when the bit is clear already |
| `FileSystem.FileSystem.Bmap` | xv6-src/kernel/fs.c:406-444 | the block's address, allocated with the indirect block if needed; nothing that was referenced moves or changes; 0 only when the disk is full |
| `FileSystem.FileSystem.AllocatedIffReferencedOnce` | xv6-src/kernel/fs.c:66-106 | a bitmap bit is set exactly for metadata blocks and blocks named by exactly one slot of one inode |
| `FileSystem.FileSystem.Readi` | xv6-src/kernel/fs.c:495-523 | exactly the requested slice cut at the end of the file; -1 only when a copy fails |
| `FileSystem.FileSystem.Writei` | xv6-src/kernel/fs.c:529-562 | the file takes the first r source bytes at the offset across block boundaries, no other file changes; r is short only at a failing copy or on a full disk, and no copy before it has failed; -1 exactly for a bad offset or size, with no change |
| `FileSystem.FileSystem.Iupdate` | xv6-src/kernel/fs.c:227-243 | the on-disk inode becomes the in-memory one |
| `FileSystem.FileSystem.Itrunc` | xv6-src/kernel/fs.c:449-476 | the file is empty, exactly its blocks are free again, freeing a free block never happens, and only bitmap blocks and the inode's block are logged |
| `FileSystem.FileSystem.CutBack` | xv6-src/kernel/cache.c:163-170 | setting the size back and saving it cuts the file there; no other file changes |
| `FileSystem.FileSystem.WriteTransaction` | xv6-src/kernel/file.c:148-165 | one chunk of filewrite logs at most six blocks plus the bitmap blocks, seven with one bitmap block, and every block it changes is among them |
| `FileDisk.InodeWritten` | xv6-src/kernel/fs.c:227-243 | iupdate's words in an inode block read back as the inode, and the fifteen others in the block stay |
| `FileDisk.ShowsHomes` | xv6-src/kernel/fs.h:8-23 | which file system a disk holds does not depend on its log blocks |
| `FileDisk.BetweenStep` | xv6-src/kernel/log.c:209-236 | writing one touched block, a bitmap, inode or data block, brings the disk one block nearer to the new file system and disturbs no other block |
| `FileDisk.SavedIs` | xv6-src/kernel/fs.h:31-51 | once inodes are saved the disk alone determines the files: bitmap bits are exactly the metadata and the blocks named once, and each file read off the disk is the file in memory |
| `FileTransactions.WriteTransactionFits` | xv6-src/kernel/file.c:148-165 | with at most three bitmap blocks, every block number a chunk of filewrite hands to log_write is in the log already or within the operation's reservation |
| `FileTransactions.LogBlock` | xv6-src/kernel/log.c:209-236 | bread, change, log_write and brelse of one touched block, among any steps of readers: neither log_write panic is reached and the newest versions are one block nearer to the new file system |
| `FileTransactions.LogBlocks` | xv6-src/kernel/file.c:160-165 | after all touched blocks the newest versions are the new file system; the committed ones are still the old |
| `FileTransactions.StopLeavesOneOfTwo` | xv6-src/kernel/log.c:195-207 | a transaction stopped after any number of its disk writes, and then in any number of recoveries, leaves a disk with the whole file system from before it or the whole one from after it |
| `FileTransactions.WriteLogged` | xv6-src/kernel/file.c:160-165 | one chunk, begin_op to end_op: the file takes the bytes written, at the offset, and no other file changes; it is short only at a failing copy or on a full disk; a stop after any of its disk writes leaves the files from before it or those from after it; it panics or waits only with every buffer in use or another process on one it needs |
| `FileTransactions.AtomicChunk` | xv6-src/kernel/file.c:155-171 | if every disk so far comes back with a whole number of chunks, so does every disk through the next chunk |
| `FileTransactions.FileWriteLogged` | xv6-src/kernel/file.c:148-173 | filewrite: a stop after any of its disk writes, and then in any number of recoveries, leaves a disk with a consistent bitmap, whose file is the old one with the bytes of some whole number of chunks spliced in and whose other files are as they were; a call that ends returns n exactly when all n bytes are committed, and otherwise for one of the four reasons of FileWrite; one that does not end has found every buffer in use or waits for another process |
| `FileSystem.FileSystem.FileWrite` | xv6-src/kernel/file.c:148-173 | all chunks together write one prefix of the source at the offset; the result is n exactly when all of it went in, and otherwise the offset is bad, the file would pass its largest size, the next copy fails or no block is free |
| `PageTables.AddMid` | xv6-src/kernel/vm.c:98-115 | a new second-level table changes nothing an address space maps |
| `PageTables.AddLow` | xv6-src/kernel/vm.c:98-115 | a new third-level table changes nothing an address space maps |
| `PageTables.ChangeLeaf` | xv6-src/kernel/vm.c:146-171 | writing one third-level entry maps or unmaps exactly one page of the flat map |
| `PageTables.SpaceKept` | xv6-src/kernel/vm.c:98-115 | an address space keeps its tables when none of its own frames changes |
| `PageTables.WorldChangeLeaf` | xv6-src/kernel/vm.c:146-209 | mapping or unmapping a page keeps every frame in one role and all spaces equal to their flat maps |
| `VirtualMemory.Memory.constructor` | xv6-src/kernel/kalloc.c:27-42 | kinit puts every frame on the free list |
| `VirtualMemory.Memory.Kalloc` | xv6-src/kernel/kalloc.c:69-82 | pops the free list; fails exactly when it is empty |
| `VirtualMemory.Memory.Kfree` | xv6-src/kernel/kalloc.c:47-64 | pushes a frame nothing uses |
| `VirtualMemory.Memory.Walk` | xv6-src/kernel/vm.c:98-115 | the third-level table of a page, made if asked, which fails exactly when fewer frames are free than tables are missing; without alloc nothing changes and failure means there is none |
| `VirtualMemory.Memory.Walkaddr` | xv6-src/kernel/vm.c:121-138 | succeeds exactly for mapped user pages below MAXVA, with the page's frame |
| `VirtualMemory.Memory.MapPage` | xv6-src/kernel/vm.c:146-171 | exactly one page is added to the flat map; the remap panic is not reached; fails exactly when the frames do not suffice for the missing tables, and then leaves the mappings |
| `VirtualMemory.Memory.FreshPage` | xv6-src/kernel/vm.c:225-238 | a filled page is mapped exactly when there is a frame for it and one for each missing table; otherwise the mappings stay |
| `VirtualMemory.Memory.Uvmunmap` | xv6-src/kernel/vm.c:193-209 | exactly the given range is removed from the flat map and nothing of any other space changes |
| `VirtualMemory.OnePageLess` | xv6-src/kernel/vm.c:98-115 | mapping one page of a set takes a frame for it and one for each table it lacks, and leaves exactly the cost of the others |
| `VirtualMemory.Memory.Uvmalloc` | xv6-src/kernel/vm.c:217-240 | zeroed pages from the rounded old size to the new size, or the mappings as before and 0, which happens exactly when there are fewer frames than those pages and their missing tables need |
| `VirtualMemory.Memory.Uvmdealloc` | xv6-src/kernel/vm.c:247-258 | exactly the pages above the new size are unmapped |
| `VirtualMemory.Memory.Vmfault` | xv6-src/kernel/vm.c:453-473 | succeeds exactly where a page was promised, none is mapped and the frames suffice, with one zeroed writable page; otherwise nothing is mapped |
| `VirtualMemory.Memory.IsMapped` | xv6-src/kernel/vm.c:476-486 | true exactly when the flat map has the page |
| `VirtualMemory.Memory.Copyout` | xv6-src/kernel/vm.c:343-374 | changes exactly [dstva, dstva+len) of this address space, and no other, and only pages the process may write; fails only at a page not writable or when frames run out, with at most one left |
| `VirtualMemory.Memory.Copyin` | xv6-src/kernel/vm.c:381-403 | returns exactly the bytes of [srcva, srcva+len), all of which the process may read, and changes none; fails only at a page not readable or when frames run out, with at most one left |
| `VirtualMemory.FaultIsInvisible` | xv6-src/kernel/vm.c:453-473 | a page fault changes no byte, readability or writability a process can observe |
| `VirtualMemory.CopyRoundTrip` | xv6-src/kernel/vm.c:343-403 | a copyin after a successful copyout returns the bytes written |
| `TableTeardown.BuryKeepsWorld` | xv6-src/kernel/vm.c:283-288 | giving up an address space that maps nothing leaves all others intact |
| `TableTeardown.OneMoreFreed` | xv6-src/kernel/vm.c:263-279 | freeing the table below one entry frees exactly the pages below it |
| `TableTeardown.Freewalk` | xv6-src/kernel/vm.c:263-279 | every table page from the root down becomes free, no other frame changes, and the leaf panic is not reached |
| `ProcessMemory.Uvmcreate` | xv6-src/kernel/vm.c:179-187 | an empty root table, or no change exactly without a free frame |
| `ProcessMemory.Uvmfree` | xv6-src/kernel/vm.c:283-288 | all pages and tables of the space become free and nothing else changes |
| `ProcessMemory.ProcPagetable` | xv6-src/kernel/proc.c:193-222 | a table with exactly the trampoline and trapframe pages, taking three frames, or no trace of the attempt, exactly when fewer are free |
| `ProcessMemory.ProcFreepagetable` | xv6-src/kernel/proc.c:227-232 | the whole address space is given back |
| `ProcessMemory.Uvmcopy` | xv6-src/kernel/vm.c:297-324 | the child gets its own copy of every mapped page with the same permissions and bytes; or it maps what it mapped before, exactly when there are fewer frames than the pages and the tables they lack |
| `ProcessMemory.LazyIsEager` | xv6-src/kernel/sysproc.c:78-96 | eager and lazy growth give a process the same bytes and the same permissions |
| `ProcessMemory.CopyLooksSame` | xv6-src/kernel/vm.c:297-324 | a forked child sees exactly the memory its parent sees |
| `ProcessMemory.ForkUndone` | xv6-src/kernel/proc.c:287-300 | whatever kalloc of a fork fails, the free frames and all other frames are as before |
| `ProcessMemory.Processes.Growproc` | xv6-src/kernel/proc.c:253-282 | growth is all or nothing, and is refused exactly past the address space, past the quota or with fewer frames than the new pages and their tables need; shrinking unmaps exactly the pages above |
| `ProcessMemory.Processes.Sbrk` | xv6-src/kernel/sysproc.c:72-97 | the old size, or -1 exactly where growproc refuses or, lazily, past the address space; every growing call, eager or lazy, gives the same observable memory |
| `ProcessMemory.Processes.Fault` | xv6-src/kernel/vm.c:453-473 | a fault of a process is invisible to it and touches no other process; it succeeds exactly where a page was promised, none is mapped and the frames suffice |
| `ProcessMemory.Processes.CopyFrom` | xv6-src/kernel/vm.c:381-403 | copyin from a process returns exactly its bytes, all readable, leaves what it observes, touches no frame of another process and keeps all processes in order; it fails only at an unreadable page or without frames |
| `ProcessMemory.Processes.CopyTo` | xv6-src/kernel/vm.c:343-374 | copyout to a process writes a prefix of the source, all of it on success and only to writable pages, and changes no other byte of it and no frame of another process; it fails only at an unwritable page or without frames |
| `ProcessMemory.Processes.OthersSeeNoChange` | xv6-src/kernel/vm.c:343-403 | whatever a process does to frames of its own, every other process observes the same memory |
| `ProcessMemory.Processes.Allocproc` | xv6-src/kernel/proc.c:111-158 | a trapframe and an address space, or exactly the starting free set, exactly when fewer than four frames are free |
| `ProcessMemory.Processes.Freeproc` | xv6-src/kernel/proc.c:165-187 | trapframe, pages and tables of the process become free |
| `ProcessMemory.Processes.Userinit` | xv6-src/kernel/proc.c:236-248 | a first process of size 0, or exactly the starting state, exactly when fewer than four frames are free |
| `ProcessMemory.Processes.FramesAreNotShared` | xv6-src/kernel/vm.c:146-324 | a frame of user memory is mapped once, below the process's size, and is not free |
| `ProcessMemory.Processes.Fork` | xv6-src/kernel/proc.c:287-304 | a child with a copy of the parent's memory and size, exactly when there is a frame for the trapframe, the root table, the two tables of the kernel pages, every page of the parent and every further table these need; otherwise exactly the starting state |
| `ProcessMemory.Processes.Exit` | xv6-src/kernel/proc.c:165-187 | no frame belongs to the process any more and every other frame keeps its use and contents |
| `SleepWakeup.StepKeepsLocks` | xv6-src/kernel/proc.c:617-661 | the condition lock and each process's own lock are held exactly where the code holds them |
| `SleepWakeup.StepKeepsInv` | xv6-src/kernel/proc.c:617-661 | every step of sleep, wakeup, dispatch and kill keeps: a process bound to sleep on a ready channel still has a wakeup coming |
| `SleepWakeup.NoLostWakeup` | xv6-src/kernel/proc.c:617-661 | with the lock free and no wakeup owed, nobody is asleep, or about to be, on a ready channel |
| `SleepWakeup.AsleepUntilWoken` | xv6-src/kernel/proc.c:617-661 | whoever is asleep stays so until a wakeup on its own channel reaches it, or a kill |
| `SleepLock.StepKeepsSystem` | xv6-src/kernel/sleeplock.c:22-41 | every step of acquiresleep and releasesleep keeps exactly one owner and owes its wakeups |
| `SleepLock.SleeplockIsSafe` | xv6-src/kernel/sleeplock.c:22-41 | in every interleaving at most one holder, recorded by pid, and no one asleep on a free sleeplock |
| `Pipe.TestsAreExact` | xv6-src/kernel/pipe.c:88-110 | the code's tests on wrapping 32-bit counters see exactly an empty and a full ring |
| `Pipe.PutKeepsFifo` | xv6-src/kernel/pipe.c:92-97 | a stored byte goes after all unread ones |
| `Pipe.TakeKeepsFifo` | xv6-src/kernel/pipe.c:119-128 | the byte read is the oldest unread one |
| `Pipe.Buffer.Write` | xv6-src/kernel/pipe.c:77-102 | bytes go in while there is room, in order; each reason for stopping is exact |
| `Pipe.Buffer.Read` | xv6-src/kernel/pipe.c:119-134 | the oldest unread bytes up to n; -1 only when the first cannot be delivered |
| `PipeProtocol.StepKeepsSystem` | xv6-src/kernel/pipe.c:59-134 | every step of readers, writers and closers keeps first-in first-out order and the wakeups owed |
| `PipeProtocol.PipeIsSafe` | xv6-src/kernel/pipe.c:59-134 | in every run what is received is a prefix of what was sent; with the lock free no writer sleeps on a pipe with room, and no reader on a pipe with bytes except from the killing of a writer with bytes unannounced to the end of the next wakeup of readers |
| `PipeProtocol.ReadersAreSafe` | xv6-src/kernel/pipe.c:84-87 | over all runs nobody misses a wakeup if and only if no writer is killed between putting a byte in and announcing it |
| `PipeProtocol.KilledWriterLosesAWakeup` | xv6-src/kernel/pipe.c:84-87 | a writer killed after its first byte leaves a reader asleep on a non-empty idle pipe |
| `PipeProtocol.StepKeepsReturns` | xv6-src/kernel/pipe.c:77-134 | a call about to return has its reason: a write is short only at a bad address; a read is short only on an empty pipe or at a bad address, and gets nothing only without a writer |
| `PipeProtocol.ReturnsAreJustified` | xv6-src/kernel/pipe.c:77-134 | in every run a pipe call returns only for its reason, or because it has been killed or, writing, has nobody left to read |
| `ProcessForest.StepKeepsHarts` | xv6-src/kernel/proc.c:469-565 | a hart runs a slot exactly when the slot is on that hart |
| `ProcessForest.StepKeepsParents` | xv6-src/kernel/proc.c:287-449 | every set parent pointer names a live process |
| `ProcessForest.StepKeepsForkers` | xv6-src/kernel/proc.c:287-341 | a slot being forked has exactly one forker |
| `ProcessForest.StepKeepsNoneLeft` | xv6-src/kernel/proc.c:345-355 | an exiting process leaves no child behind that it has passed |
| `ProcessForest.StepKeepsWait` | xv6-src/kernel/proc.c:361-449 | no waiter misses a zombie child |
| `ProcessForest.StepKeepsPids` | xv6-src/kernel/proc.c:94-104 | pids in use are distinct and none is collected twice |
| `ProcessForest.StepKeepsInv` | xv6-src/kernel/proc.c:287-565 | all of these together, for every step |
| `ProcessForest.ForestIsSafe` | xv6-src/kernel/proc.c:286-449 | in every run: no slot on two harts, parents alive, no pid reaped twice, no process asleep in wait with a zombie child while wait_lock is free, and none asleep there without any child |
| `ProcessForest.ZombieLeavesToItsParent` | xv6-src/kernel/proc.c:416-434 | a zombie leaves only by being collected by its current parent |
| `ProcessForest.StepKeepsKids` | xv6-src/kernel/proc.c:404-449 | havekids is exactly whether some slot passed so far is a child, and whoever is to sleep in wait has a child |
| `ProcessForest.WaitReturns` | xv6-src/kernel/proc.c:404-449 | whoever leaves wait has collected a zombie child, or met one whose status it could not take, or has no child, or has been killed |
| `ProcessForest.WaitDecides` | xv6-src/kernel/proc.c:438-447 | after its scan wait has no zombie child left; it returns exactly if it has no child or was killed, and goes to sleep otherwise |
| `ProcessForest.KillIsSeen` | xv6-src/kernel/proc.c:438-447 | a process bound to sleep in wait has missed a kill only if it came between killed() and sleep's taking the process's lock |
| `ProcessForest.KillIsMissed` | xv6-src/kernel/proc.c:438-447 | a run in which a kill does come there: the killed process sleeps in wait, with no lock held, until a child exits |
| `ProcessForest.SlotsEndCollected` | xv6-src/kernel/proc.c:345-449 | a slot in use keeps its pid, stays killed once it is, becomes a zombie only by its own exit and ends only collected by its parent |
| `ProcessForest.AsleepUntilWoken` | xv6-src/kernel/proc.c:345-391 | a parent asleep in wait stays so until a child's exit wakes it, or a kill; init also when it inherits a child |
| `ProxyFrames.DecimalRoundTrip` | xv6-src/user/proxy_client.h:59-115 | a number written in decimal is read back |
| `ProxyFrames.AppendInt` | xv6-src/user/proxy_client.h:60-68 | appends exactly the sign and the decimal digits of the number |
| `ProxyFrames.ParseInt` | xv6-src/user/proxy_client.h:104-115 | the value of the longest run of digits, and its length |
| `ProxyFrames.RequestRoundTrip` | host/proxy_daemon.py:280-284 | the host splits a request line into the id, role and prompt that were sent |
| `ProxyFrames.ResponseRoundTrip` | xv6-src/user/proxy_client.h:143-160 | a response to this pid is accepted and its payload is the reply, cut to the buffer |
| `ProxyFrames.OthersDropped` | xv6-src/user/proxy_client.h:143-152 | a response to another pid is dropped |
| `ConsoleInput.Console.Intr` | xv6-src/kernel/console.c:156-203 | one input byte does to the line, to what may be read and to the echo exactly what Received says, counters wrapping |
| `ConsoleInput.Received` | xv6-src/kernel/console.c:156-203 | what may be read already is never taken back, and the line never outgrows the ring |
| `ConsoleTyping.EchoShows` | xv6-src/kernel/console.c:156-203 | after any key the terminal row shows the line as it is edited now; Enter begins a new row |
| `ConsoleTyping.LineIsRead` | xv6-src/kernel/console.c:156-203 | keys with erasures and ^U, then Enter, make exactly the corrected line and a newline readable |
| `ConsoleTyping.LineIsShown` | xv6-src/kernel/console.c:156-203 | until then the screen shows exactly the corrected line |
| `ConsoleInput.Console.KillLine` | xv6-src/kernel/console.c:165-171 | erases back to the last newline or to what may be read, echoing one rub-out per erased byte |
| `ConsoleInput.Console.ReadOne` | xv6-src/kernel/console.c:101-150 | reads the oldest readable byte, end of file for ^D |
| `ProxyProtocol.ChatIsNoRequest` | xv6-src/kernel/console.c:71-93 | no byte of another write completes something the host would take for a request |
| `ProxyProtocol.EchoIsNoRequest` | xv6-src/kernel/console.c:180-188 | no echoed byte completes something the host would take for a request |
| `ProxyProtocol.StepKeepsInv` | xv6-src/user/proxy_client.h:82-199 | every step of callers, other writers, the host and the console keeps the state of the one open call |
| `ProxyProtocol.ReadStep` | xv6-src/user/proxy_client.h:124-164 | a call that returns has the handler's reply to its own request |
| `ProxyProtocol.AsSent` | xv6-src/user/proxy_client.h:81-98 | the request that goes out fits the buffer: the prompt is cut, and only if it does not fit |
| `ProxyProtocol.ProxyIsSafe` | xv6-src/user/proxy_client.h:171-199 | in every run in which other writes mind their tabs, at most one call is open, every request line at the host is whole and that call's, and every returned call has its own handler result cut to outmax-1 |
| `ProxyTabs.EchoCompletesATag` | xv6-src/kernel/console.c:71-93 | a run in which the echo of a response and another write's tab make a line that the host takes for a request and nobody sent |
| `ProxyTabs.SafeExactlyWithCoveredTabs` | host/proxy_daemon.py:274-284 | over all handlers and runs the protocol is safe if and only if other lines have a byte that is no letter of the request tag before their first tab |
| `ProxyClient.AppendStr` | xv6-src/user/proxy_client.h:70-74 | appends as much of the text as leaves one byte of the buffer free |
| `ProxyClient.ProxySend` | xv6-src/user/proxy_client.h:81-98 | the one write is the frame of the request, its prompt cut to the buffer |
| `ProxyClient.LinePayload` | xv6-src/user/proxy_client.h:143-160 | a line is accepted exactly if it is a response to this id, and its payload is cut to outmax-1 |
| `ProxyClient.ProxyRecv` | xv6-src/user/proxy_client.h:124-164 | bytes gathered into lines of at most 511, each tested; the first response to this id ends the loop, end of file and a buffer without room fail it |
| `ProxyClient.ReplyIsHeard` | xv6-src/user/proxy_client.h:124-164 | whatever other lines come first, proxy_recv returns the reply in the response to its id, cut to outmax-1 |
| `MinHash.SignatureIsUnique` | xv6-src/kernel/cache.c:85-99 | a set of words has one signature |
| `MinHash.SameWordsSameSignature` | xv6-src/kernel/cache.c:104-130 | prompts with the same content words have the same signature, whatever order, repetition, case or punctuation |
| `MinHash.IsStopword` | xv6-src/kernel/cache.c:69-80 | true exactly for the listed words |
| `MinHash.FoldWord` | xv6-src/kernel/cache.c:85-99 | the signature of the word set with this word added |
| `MinHash.CacheSig` | xv6-src/kernel/cache.c:104-130 | the signature of the set of lower-case, 31-character, non-stopword runs of the prompt |
| `MinHash.SigMatch` | xv6-src/kernel/cache.c:134-141 | the number of agreeing positions |
| `MinHash.AgreementsCount` | xv6-src/kernel/cache.c:134-141 | that number is the size of the set of positions where the signatures agree |
| `MinHash.ThresholdIsSeven` | xv6-src/kernel/cache.c:144-147 | the hit threshold is exactly 7 of 16 |
| `WordSets.SameTextSameWords` | xv6-src/kernel/cache.c:104-130 | texts that differ only in case and in what stands between words have the same content words |
| `WordSets.JoinedWords` | xv6-src/kernel/cache.c:104-130 | two texts with a separator between them have the words of both, so order and repetition do not matter |
| `WordSets.SentenceWords` | xv6-src/kernel/cache.c:69-130 | the content words of a sentence are its words, cut to 31 characters, but for the stopwords |
| `CacheKey.CacheFnv1a` | xv6-src/kernel/cache.c:39-59 | the three loops compute the hash of role, bar and prompt, never 0 |
| `CacheKey.RolesApart` | xv6-src/kernel/cache.c:39-59 | roles that differ in one byte have different keys for the same prompt, unless both keys are 1 |
| `CacheKey.PromptsApart` | xv6-src/kernel/cache.c:39-59 | and so have prompts that differ in one byte |
| `CacheKey.BarCounts` | xv6-src/kernel/cache.c:39-59 | moving a byte from the end of the role to the front of the prompt changes the key, unless both are 1 |
| `CacheKey.BarIsAByte` | xv6-src/kernel/cache.c:39-59 | a bar within the role is not told from the one that ends it: both readings have one key |
| `CacheKey.EmptyKey` | xv6-src/kernel/cache.c:39-59 | the key that the constants give for an empty role and an empty prompt |
| `CacheKey.WordsApart` | xv6-src/kernel/cache.c:85-99 | prompts of one word each that differ in one byte do not agree at the first position |
| `CacheKey.PositionsApart` | xv6-src/kernel/cache.c:85-99 | the sixteen hashes of a word are all different |
| `CacheRecords.RecordRoundTrip` | xv6-src/kernel/cache.h:23-28 | a record's 344 bytes, whatever the padding after its strings, are read back as the record |
| `CacheRecords.RecordsAppend` | xv6-src/kernel/cache.c:154-174 | appending a record's bytes to a file of whole records appends exactly that record |
| `CacheRecords.BestIs` | xv6-src/kernel/cache.c:286-294 | the chosen record is a same-role one that agrees most, and the first of equals |
| `CacheRecords.LookupIs` | xv6-src/kernel/cache.c:266-311 | a lookup finds a record that answers, looks on disk exactly when no slot in use answers, and misses exactly when no record anywhere answers |
| `CacheRecords.LookupOrder` | xv6-src/kernel/cache.c:266-311 | which record: in each tier one with the key if there is one, on disk the last, and otherwise the first of those of the role that agree most |
| `CacheRecords.StoredIsFound` | xv6-src/kernel/cache.c:248-311 | a record just put in RAM is what a lookup of its key finds, and one just appended is what the disk has for it |
| `CacheRecords.ParaphraseIsAnswered` | xv6-src/kernel/cache.c:276-311 | a prompt with the content words of a stored same-role prompt, in either tier, always hits |
| `CacheRecords.PlacedOk` | xv6-src/kernel/cache.c:248-263 | ram_put keeps one slot per key and touches no other record; the record goes in exactly if its key has a slot or a slot is empty |
| `CacheRecords.PromotionKeeps` | xv6-src/kernel/cache.c:303-310 | promoting a disk hit overwrites no slot in use and keeps the tiers equal while each key is on disk once |
| `ResponseCache.Cache.RamPut` | xv6-src/kernel/cache.c:248-263 | over the slot with the same key, else into the first empty slot, else nowhere |
| `ResponseCache.Cache.Best` | xv6-src/kernel/cache.c:286-294 | finds the first of the most agreeing same-role slots in use, or none |
| `ResponseCache.Cache.ReadRecord` | xv6-src/kernel/cache.c:194-200 | readi of record n returns bytes 344n to 344(n+1) of the file as the record they hold |
| `ResponseCache.Cache.DiskScan` | xv6-src/kernel/cache.c:179-227 | the last record with the key, else the first of the most agreeing same-role records if over the threshold, whatever bytes the file holds |
| `ResponseCache.Cache.Get` | xv6-src/kernel/cache.c:266-311 | returns the value of the record the lookup order chooses, or misses; nothing changes but the promotion of a disk hit |
| `ResponseCache.Cache.DiskAppend` | xv6-src/kernel/cache.c:153-174 | the file gains exactly the record's bytes or, when writei falls short, is as it was: whole records stay whole records and no other file changes; fails only without the file, at the largest size or on a full disk |
| `ResponseCache.Cache.Set` | xv6-src/kernel/cache.c:314-341 | the record goes to RAM exactly if its key has a slot or one is empty, and then to the end of the file unless there is none, it is as large as a file can be or the disk is full; whole records stay whole records |
| `ResponseCache.Cache.Call` | xv6-src/user/proxy_client.h:171-199 | a hit returns the value the lookup order chooses, a miss the reply, which is then remembered in both tiers as cacheset would; role or prompt too long for the kernel's buffers counts as a hit and leaves the caller's buffer; lookup and store keep each key once per tier, equal in both, and every RAM record on disk while no append fails |
| `ResponseCache.Cache.Clear` | xv6-src/kernel/cache.c:344-353 | every slot is empty, and the file too if asked; no other file changes |
| `VerdictLoop.CheckField` | xv6-src/kernel/verifier.c:40-46 | true exactly for a non-empty text terminated within its buffer |
| `VerdictLoop.SameString` | xv6-src/kernel/verifier.c:51-60 | strncmp in the verifier compares exactly the texts |
| `VerdictLoop.TargetIsProtected` | xv6-src/kernel/verifier.c:51-60 | true exactly for a protected name or a protected process in the snapshot |
| `VerdictLoop.VerifyFix` | xv6-src/kernel/verifier.c:70-113 | the verdict: field, range, protected, action, in that order |
| `VerdictLoop.VerdictMeans` | xv6-src/kernel/verifier.c:30-113 | what each answer means, exactly: a destructive action is never accepted, and is told apart on init, sh, the evaluator and what the snapshot protects |
| `VerdictLoop.AcceptedOnceIsAccepted` | xv6-src/kernel/verifier.c:70-113 | a proposal accepted once is accepted under every snapshot |
| `VerdictLoop.AmendRemovesOne` | xv6-src/user/evaluator.c:102-127 | each amendment removes exactly one of the three kinds of defect |
| `VerdictLoop.AmendIs` | xv6-src/user/evaluator.c:102-127 | numbers go to the nearest ones in range, texts come from the state rolled back to, an action becomes a harmless one, and everything else stays |
| `VerdictLoop.Converges` | xv6-src/user/evaluator.c:102-171 | from any proposal the loop is accepted after exactly as many amendments as defects, at most three, whatever the snapshots |
| `VerdictLoop.ThreeDefectsExist` | xv6-src/user/evaluator.c:147-166 | some proposal has all three defects, one more than the retry limit can mend |
| `VerdictLoop.ImageRoundTrip` | xv6-src/kernel/sysproc.c:321-371 | a proposal checkpointed as bytes is restored as it was |
| `VerdictLoop.Slot.Checkpoint` | xv6-src/kernel/sysproc.c:321-341 | the slot holds the caller's bytes and pid, or is unchanged if the length is negative or too large or the copy faults |
| `VerdictLoop.Slot.Restore` | xv6-src/kernel/sysproc.c:347-371 | the caller's own checkpoint, cut to the length asked for; nothing of another's; -1 for a negative length or a faulting copy |
| `VerdictLoop.ProposalDefects` | xv6-src/user/evaluator.c:71-95 | the baseline is accepted; the first proposal has one defect if the response was bad and none otherwise |
| `VerdictLoop.Evaluator.OthersRun` | xv6-src/kernel/sysproc.c:321-341 | other processes' checkpoints take the slot away exactly if one of them stores something, and leave the evaluator's own as it was otherwise |
| `VerdictLoop.Evaluator.Rollback` | xv6-src/user/evaluator.c:162-163 | restoring leaves the process's own checkpoint, or what it had if the slot is another's |
| `VerdictLoop.Evaluator.Retry` | xv6-src/user/evaluator.c:147-167 | the retry loop accepts at attempt defects + 1 and fails exactly for three defects; each round rolls back to the checkpoint while the slot holds it; the accepted proposal is the amended one and is checkpointed; it gives up only where its call fails |
| `VerdictLoop.Evaluator.HandleLine` | xv6-src/user/evaluator.c:143-171 | failure is never reported; acceptance comes at the first or second attempt |
| `Virtqueue.AtMostTwo` | xv6-src/kernel/virtio_disk.c:203-213 | at most two three-descriptor requests are in flight |
| `Virtqueue.Push` | xv6-src/kernel/virtio_disk.c:270-277 | an entry added at the 16-bit index overwrites none that is unread |
| `Virtqueue.Pop` | xv6-src/kernel/virtio_disk.c:311-325 | taking an entry leaves the rest of the ring in order, indices wrapping |
| `Virtqueue.TransferHistory` | xv6-src/kernel/virtio_disk.c:216-291 | a transfer adds one history entry, for a ticket that had none |
| `Virtqueue.VirtioDisk.AllocDesc` | xv6-src/kernel/virtio_disk.c:157-166 | the lowest free descriptor, or -1 exactly when none is free |
| `Virtqueue.VirtioDisk.FreeDesc` | xv6-src/kernel/virtio_disk.c:170-182 | frees and clears one descriptor; fails exactly in the two panic cases |
| `Virtqueue.VirtioDisk.Alloc3` | xv6-src/kernel/virtio_disk.c:203-213 | three descriptors if and only if three are free, and otherwise no change at all |
| `Virtqueue.VirtioDisk.Submit` | xv6-src/kernel/virtio_disk.c:216-280 | posts one formatted request if three descriptors are free, otherwise changes nothing |
| `Virtqueue.VirtioDisk.DeviceTake` | xv6-src/kernel/virtio_disk.c:270-280 | the device reads from the chain exactly what was asked for |
| `Virtqueue.VirtioDisk.DeviceComplete` | xv6-src/kernel/virtio_disk.c:295-325 | any taken request, in any order: exactly its bytes move between its buffer and its block |
| `Virtqueue.VirtioDisk.Interrupt` | xv6-src/kernel/virtio_disk.c:295-327 | exactly the completed requests are marked done; the status panic is not reached |
| `Virtqueue.VirtioDisk.FreeChain` | xv6-src/kernel/virtio_disk.c:186-198 | frees exactly the three descriptors of the chain; no panic |
| `Virtqueue.VirtioDisk.Finish` | xv6-src/kernel/virtio_disk.c:282-291 | a request that returns was transferred exactly once on its own buffer, and its descriptors are free again |
| `UserMalloc.Canonical` | xv6-src/user/umalloc.c:25-44 | two heaps with the same free bytes have the same free headers and sizes |
| `UserMalloc.UpwardListsFree` | xv6-src/user/umalloc.c:25-44 | following the links lists exactly the free headers in ascending order, once round |
| `UserMalloc.MergeBlocks` | xv6-src/user/umalloc.c:33-42 | joining adjacent free blocks keeps every byte in one block |
| `UserMalloc.CutBlocks` | xv6-src/user/umalloc.c:76-84 | cutting a block's upper end off keeps every byte in one block |
| `UserMalloc.SbrkArgumentFits` | xv6-src/user/umalloc.c:47-60 | the amount passed to sbrk as an int is the amount used if and only if at most 2^31 - 32 bytes were asked for; beyond that it is at most one unit |
| `UserMalloc.Allocator.LiveBlocksApart` | xv6-src/user/umalloc.c:64-90 | live blocks overlap neither each other nor free blocks, and sizes fit 32 bits |
| `UserMalloc.Allocator.FindPlace` | xv6-src/user/umalloc.c:29-32 | the search ends at the free header just below the block |
| `UserMalloc.Allocator.Free` | xv6-src/user/umalloc.c:25-44 | exactly the block's bytes become free, no two adjacent free blocks remain, live blocks stay, and the next search starts at the free header just below |
| `UserMalloc.Allocator.Morecore` | xv6-src/user/umalloc.c:47-60 | exactly the bytes got from sbrk become free, or nothing changes |
| `UserMalloc.Allocator.Malloc` | xv6-src/user/umalloc.c:64-90 | the upper end of the first free block after freep that is large enough, or new bytes only if none is; 0 only if sbrk refuses then; the loop ends |
| `UserMalloc.Allocator.MallocThenFree` | xv6-src/user/umalloc.c:25-90 | giving a block back at once restores headers, sizes and links of the free list |
| `ShellSyntax.ArgsBack` | xv6-src/user/sh.c:422-451 | words and redirections in any order parse to the words as arguments under all the redirections in the order written |
| `ShellSyntax.ExecBack` | xv6-src/user/sh.c:406-451 | a simple or parenthesised command as written, before any terminator, parses to its tree |
| `ShellSyntax.LineBack` | xv6-src/user/sh.c:351-378 | a written line before the end or a closing parenthesis parses to its tree |
| `ShellSyntax.ArgsRead` | xv6-src/user/sh.c:422-451 | what the argument loop accepts is words and redirections, fewer than ten words, and it returns their tree |
| `ShellSyntax.LineRead` | xv6-src/user/sh.c:351-451 | what the parser accepts as a line is a line of the grammar, and it returns its tree |
| `ShellSyntax.ParsesExactly` | xv6-src/user/sh.c:334-451 | the parser accepts exactly the lines of the grammar and gives each its tree |
| `ShellSyntax.NotAmbiguous` | xv6-src/user/sh.c:334-451 | no line stands for two trees |
| `ShellSyntax.PrintedParsesBack` | xv6-src/user/sh.c:334-347 | every tree with at most nine arguments per command, printed with parentheses where needed, parses back to itself |
| `ShellText.LexSpaced` | xv6-src/user/sh.c:272-314 | tokens with any blanks between them, and none where they do not run together, are read back |
| `ShellText.Spells` | xv6-src/user/sh.c:272-314 | every text is spelt by the tokens that are read from it, with blanks |
| `ShellText.LinesExactly` | xv6-src/user/sh.c:272-451 | on characters: exactly the texts that spell a line of the grammar are accepted, each with the tree of that line |
| `ShellParser.Parser.Gettoken` | xv6-src/user/sh.c:272-314 | the next token and its bounds; the cursor moves past exactly it |
| `ShellParser.Parser.Peek` | xv6-src/user/sh.c:317-326 | whether the next token begins with one of the characters |
| `ShellParser.Parser.ParseRedirs` | xv6-src/user/sh.c:381-403 | the cursor parser reads the redirections of the grammar |
| `ShellParser.Parser.ParseExec` | xv6-src/user/sh.c:406-451 | the cursor parser reads the simple or parenthesised command of the grammar |
| `ShellParser.Parser.ParsePipe` | xv6-src/user/sh.c:368-378 | the cursor parser reads the pipeline of the grammar |
| `ShellParser.Parser.ParseLine` | xv6-src/user/sh.c:351-365 | the cursor parser reads the line of the grammar and ends on every input |
| `ShellParser.EndsAreDelimiters` | xv6-src/user/sh.c:456-499 | every position nulterminate writes is a delimiter or the end of the line |
| `ShellParser.Nulterminate` | xv6-src/user/sh.c:456-499 | writes a NUL just past every word of the tree and nowhere else |
| `ShellParser.StringsAreTokens` | xv6-src/user/sh.c:456-499 | after it every argument and file name is, as a C string, its token |
| `ShellParser.Parsecmd` | xv6-src/user/sh.c:334-347 | the tree of the whole line, with its strings terminated in place and every word character unchanged |

## Left out

- UART registers, interrupts, trap entry, context-switch assembly, TLB and memory fences: hardware with no meaning in these models.
- kexec and ELF loading, directories and path names, printf, the live and replay handlers of the host, QEMU control and reports: plumbing or external services.
- The scheduler's choice among runnable processes: dispatch may pick any of them, so strict priority on a quiet table is not stated.
- Progress: that a runnable process is dispatched or a lock holder comes back; only safety is proved.
- Killed holders of `proxy_lock`, kernel printf and typed input during a proxy call: the protocol is proved for runs without them.
- Reference counts, link counts and locking of inodes (`iget`, `iput`, `ilock`), and inode allocation.
- The bit layout of page-table entries: they are records.
- The type and link fields of the on-disk inode.
- copyinstr, uvmclear and the kernel's own page table.
- FileSystem.FileSystem.Writei: a failing user copy leaves its block unchanged, because copies are all or nothing here; the code may leave part of a block changed in the cache and not logged.
- FileSystem.FileSystem.constructor: no root directory and no user programs, because directories are not modelled.
- FileSystem.FileSystem.Iupdate: inodes are records there, because their bytes in a block of sixteen are FileDisk.InodeWritten.
- FileTransactions.FileWriteLogged: one file operation at a time, with readers in between, because the locking of inodes that would keep writers apart is not modelled; each touched block is changed and logged once, with its contents at the end of the chunk, because a committed transaction has no others; at most three bitmap blocks, because with more a chunk may log a tenth block.
- FileTransactions.WriteLogged: the same.
- FileTransactions.LogBlock: nobody else is in an operation, for the same reason.
- BufferCache.Bcache.Brelse: not stated for a last reference to a changed and unlogged copy, because such a copy may be lost when its buffer is recycled; only the fault path of writei (fs.c:545-548) releases one.
- BufferCache.Bcache.Drop: not stated for that case either.
- Log.Log.Unlock: not stated for a changed and unlogged buffer, for the same reason.
- Log.Log.LogWrite: not stated for a tenth distinct block of one operation, because the log region then no longer suffices (LogSpace.LogRegionSuffices).
- BufferCache.Bcache.Bunpin: not stated for the last reference to a copy that differs from its disk block, because the log unpins a block only once it is installed.
- ResponseCache.Cache.Get: overlap with stores of other processes is not modelled, because each call is one step.
- ResponseCache.Cache.Call: a value that fills the caller's buffer comes without the NUL the code then misses, and a faulting copy to the caller is not modelled, because results are texts here.
- Virtqueue.VirtioDisk.Interrupt: the device reports success for every request, because any other status is a panic by design.
- Virtqueue.VirtioDisk.Submit: a block's bytes are one value, because neither side of the queue looks inside.
- UserMalloc.Allocator.Morecore: stated for amounts that fit an int, because beyond them sbrk gets less than is recorded (UserMalloc.SbrkArgumentFits).
- UserMalloc.Allocator.MallocThenFree: stated for the sizes of Malloc, for the same reason.
- UserMalloc.Allocator.Malloc: stated for at most 2^31 - 32 bytes, because beyond them the heap records memory it does not have (UserMalloc.SbrkArgumentFits); headers are at byte addresses and other users of sbrk only move the break up, because shrinking it under the heap would give its memory away.
- VerdictLoop.VerifyFix: the null pointer case and the reason text are not modelled, because the system call always passes a proposal.
- VirtualMemory.Memory.Uvmunmap: an entry is cleared before its frame is freed, because no one else sees the table in between.
- VirtualMemory.Memory.MapPage: one page of mappages, without its alignment panics, because user memory is mapped page by page.
- ProcessMemory.Processes.Allocproc: only the memory side, because slots, pids and states are in ProcessForest.
- ProcessMemory.Processes.Freeproc: only the memory side, because slots, pids and states are in ProcessForest.
- ProcessMemory.Processes.Userinit: only the memory side, because the working directory is not modelled.
- ProcessMemory.Processes.Exit: only the memory side, because exit and wait are in ProcessForest.
- ProcessMemory.Processes.Fork: open files, names and registers are not copied, because only memory is modelled there.
- ConsoleInput.Console.Intr: the process dump of ^P is not part of the echo, because printf is not modelled.
- ConsoleInput.Console.ReadOne: one byte per call, because the proxy reads byte by byte; a longer read that meets ^D after some bytes leaves it for the next.
- ProxyFrames.ParseInt: a run of digits past 32 bits has its value, because ids are pids.
- ProxyProtocol.ProxyIsSafe: other writes are whole lines that do not contain or begin with a request, and in each line a byte that is no letter of the request tag comes before the first tab, because otherwise the property is false (ProxyTabs.SafeExactlyWithCoveredTabs); replies are printable and their frames fit the console's 128-byte ring, because input beyond it is dropped; roles fit the request buffer, because the code writes past it otherwise.
- ProxyClient.ProxySend: roles that fit the request buffer, for the same reason.
