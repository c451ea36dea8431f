# xv6, modelled in Dafny

A model of the parts of this xv6 kernel (an x86 teaching kernel with delayed group commit, `sync`, and double and
triple indirect file blocks) where most of the state and branching is, with proofs of what they are for.

| files | what they model |
|---|---|
| `Common`, `Blocks`, `LogSpec`, `LogRun`, `LogOrder`, `LogSafety`, `LogSync`, `LogHalf`, `LogLimit`, `LogImpl` | the redo log of `log.c`: its disk writes as lists, a machine of interleaved operations, commits and syncs with a crash at any write, and the code itself |
| `BufCache`, `CacheRun`, `CacheLru`, `BufCacheImpl`, `CacheBound` | the buffer cache of `bio.c` over the disk of `memide.c`, and the log and the cache run together: a single process never finds the cache full |
| `Bitmap`, `FsTree`, `FsFree`, `FsInode`, `FsFile`, `FsBudget`, `Fs`, `FsIo`, `FileIo`, `FsRoundTrip` | block allocation, the index trees, truncation, `readi`, `writei` of `fs.c`, `fileread` and `filewrite` of `file.c` |
| `FsImage`, `FsCrash`, `FsClient` | the file system over the log: what a crash at any write leaves of the files |
| `PipeSpec`, `PipeRun`, `PipeCalls`, `PipeImpl` | the pipe of `pipe.c` with the sleep and wakeup of `proc.c` |
| `VmSpec`, `VmImpl`, `VmRun` | page tables of `vm.c` over the page allocator of `kalloc.c` |
| `FreeList`, `Umalloc` | `malloc` and `free` of `umalloc.c` |
| `ShellSpec`, `ShellRules`, `ShellGrammar`, `ShellAccepts`, `ShellMeans`, `ShellRoundTrip`, `ShellImpl` | the command parser of `sh.c`, and the language it accepts |

Each part has a pure half (what a call does, as a function or a predicate on values) that carries the theorems about
whole runs, and an imperative half, a class whose methods follow the C code loop by loop and are proved against the
pure half. `dafny verify dfyconfig.toml` checks everything.

## Reading the model

**Log.** A disk is a sequence of 512-byte blocks; a write replaces one block atomically. `CommitWrites` and
`RecoverWrites` list the block writes of `commit` and `recover_from_log`; `Log.Commit` issues exactly that list, or a
prefix of it if `bread` panics. `LogRun.Step` is one event: `begin_op`, `log_write`, `end_op`, `sync`, the next step of
one of the commits under way, its return, the next step of a recovery, or a crash, which keeps the disk and forgets
everything else. A commit reads `lh` and the cached blocks anew at each step, as the loops of `log.c` do, so an operation
that logs meanwhile is seen. A client of the log promises at most `MAXOPBLOCKS` distinct home blocks per operation;
`FsBudget` proves that promise for writes of `filewrite`. "Home" blocks are those outside the log area.

**Group commit.** Commits are delayed: `LogSafety.EndsIff` says for every run that an `end_op` starts one exactly if it is
the last operation and 16 blocks or more are logged, and `LogLimit.QuietWith` that every smaller number of blocks can be left
behind with nothing outstanding. The limits 10, 30, 29 and 16 are stated as numbers in the contracts, not by the names of the
code.

**Two guards that differ.** `begin_op` reserves against `LOGSIZE` = 30 blocks, but `log_write` stops at 29, because one of the
30 blocks is the header. `LogLimit.ReservedWriteStops` is a run in which three admitted operations, each within its
budget, reach that panic; `LogSafety.StopsIff` says exactly when a write does; `LogSafety.SerialSafe` shows that one
operation at a time never gets there.

**`sync` and operations.** `sys_sync` looks at neither `outstanding` nor `committing` and does not set `committing`, against the
intent stated at `log.c:11-15`. So crash safety needs an order (`LogOrder.Allowed`): a sync comes when nothing is outstanding
or nothing is logged, and no operation is admitted while a commit that `committing` does not announce is under way. In
every run that keeps the order, `LogSafety.CrashSafe` holds. `LogSync.OrderExact` says that the order is exact: after any
orderly run, a sync or a `begin_op` keeps the order if and only if every orderly continuation, cut by a crash anywhere,
recovers to whole operations. `LogHalf.SyncShowsHalf` is one failing run in full: the sync starts with nothing outstanding
and one operation begins before it returns. Nor does a sync wake those who sleep in `begin_op` when its commit has made
room (`log.c:204` without the `wakeup` of `log.c:177`): `LogSafety.SleepRunIff` says exactly which runs leave such a sleeper
behind, and `LogHalf.SyncForgets` is one in full. It is not left for good: while anybody sleeps, an operation is outstanding
or an `end_op` is committing, and its end wakes everybody (`LogSafety.QuietAdmits`).

**Log over cache.** `LogImpl.Log` runs over the linked cache `BCache` itself. Its loops hold at most two buffers, and run
through if some buffer is neither pinned nor held (two for a recovery). `CacheBound` puts a process on top that does one
operation at a time within its budget, from boot on, and proves for any list of its calls that no `bread` finds the cache
full.

**Files.** A place (`FsTree.Loc`) is an inode, one of its addresses and a path down; `At` is the block number kept there.
`Forest` says that no block is kept at two places and that all blocks kept are in use. `FsFile.Spliced` is the byte-level
meaning of a write.

**Files and crashes.** `FsImage.WellFormed` says of a disk that its inode records lead to such a forest in which no file has a
hole; `Files` are the contents of all files. `FileSys` records what each operation logs, so `Filewrite` can say that each of
its operations turns one well-formed image into the next by one whole write. `FsCrash.CrashFiles` joins this to the log: in
every orderly run whose operations make whole writes, recovery after a crash at any block write gives a well-formed file
system with the files after exactly those writes whose operations ended durably. Operations may overlap if together they
amount to such writes in some order, which is what the inode locks are for. `FsClient.FilewriteCrash` performs the
operations of one `filewrite` in the log's machine and cuts the run anywhere.

**Pipe.** A step is one critical section: from taking the pipe lock to releasing or sleeping. `PipeCalls` tells what a call
did from what went into the pipe and came out of it: in every interleaving a `pipewrite` that stands at `i` has sent the
first `i` bytes, and one that returned has done what its result says (`CallsHonest`). Readers may be killed and the write end
closed at any time without harm. A wakeup is lost only when `pipewrite` gives up at `pipe.c:86-89`, without waking readers,
because its caller is killed or the read end is closed, while a reader sleeps and the call has filled the pipe.
`PipeRun.WakeStepIff` says this of one step and `PipeRun.WakeRunIff` of whole runs; `PipeRun.NoLostWakeup` is the case in
which no writer is killed and the read end is closed only when nobody reads. `PipeRun.LostWakeup` is a run in which a reader
sleeps on in front of a full pipe. The code can close an end under a sleeping call: descriptors are shared by `fork` and
`thread_create` (`proc.c:282`, `proc.c:544`), and `exit` closes those of all threads of the process, also of one asleep in
`piperead` (`proc.c:583-612`), before it ends them.

**Address spaces.** A page-table entry is a page number times 4096 plus flags, in a memory of 1024-word pages.
`VmSpec.Rights` is what the processor grants: the page of the second level, with the user and write bits of both levels.
`VmRun.KernelAccess` is what the kernel's half must grant, page by page. `Space` says that a given set of pages is split
between the free list, the pages a call has in hand and the space, each page at one place only, and that the directory
entries withhold no right (`OpenTables`). A virtual page is claimed (`VmRun.Claimed`) when the last call to touch it was an
`allocuvm`; an `allocuvm` of a claimed page is the remap panic, and the sizes that `growproc` passes never lead to one.

**malloc.** Addresses and sizes are in header units of 8 bytes. `Parted` says that every unit obtained from `sbrk` is in
exactly one free block or exactly one live allocation.

**Shell.** `Cmd<W>` is the parse tree, with words as positions in the line or as texts. `ShellGrammar` defines, without the
parser, every way to lay a command out as a line (`Layout`: white space, order of arguments and redirections, nesting of `;`,
`&`, `|` and blocks) and what such a layout means; `Spells` says that a line is some layout of a command.
`ShellMeans.ParsesIff` shows that the parser accepts exactly these lines and gives exactly that command.

## Model

| member | source | states |
|---|---|---|
| `LogSpec.HeadRoundTrip` | xv6-public/log.c:85-113 | reading the header block gives back exactly the block numbers that were written to it |
| `LogSpec.RecoverAt` | xv6-public/log.c:115-122 | a recovered disk, block by block: logged blocks at home, everything else as it was, the header cleared |
| `LogSpec.RecoverRestart` | xv6-public/log.c:69-122 | a crash after any prefix of recovery's writes leaves a disk that recovers to the same disk |
| `LogSpec.RecoverAnyRestarts` | xv6-public/log.c:69-122 | the same after any number of recoveries cut short at any writes |
| `LogSpec.CommitLogged` | xv6-public/log.c:182-195 | before the header write no home block has changed |
| `LogSpec.CommitInstalled` | xv6-public/log.c:197-207 | after it the header names the transaction and the log holds all its blocks, however many are home yet |
| `LogSpec.CommitDone` | xv6-public/log.c:197-207 | a whole commit puts every home block on disk as cached and clears the header |
| `LogSpec.CommitCrash` | xv6-public/log.c:182-207 | after any prefix of a commit's writes recovery gives all the old home blocks or all the new ones, the new ones exactly when the header write is in the prefix |
| `LogRun.StepSpace` | xv6-public/log.c:124-248 | every event, a sync at any time included, keeps the reservation of log space |
| `LogOrder.StepKeeps` | xv6-public/log.c:124-248 | every event in order, a crash included, keeps the invariant: commits, sleepers, operations, durable history, cache contents |
| `LogSafety.CrashSafe` | xv6-public/log.c:124-248 | in every run in which a sync finds nothing outstanding or nothing logged and no operation starts before it is through, with crashes anywhere, the disk recovers to the replay of a history prefix in which every begun operation has ended |
| `LogSafety.CacheCurrent` | xv6-public/log.c:197-238 | in every such run the cached home blocks are the replay of everything logged so far, also during commits |
| `LogSafety.CommitDurable` | xv6-public/log.c:197-207 | from the first header write of a commit to its last, the whole history survives a crash and holds no half-done operation |
| `LogSafety.EmptyLogDurable` | xv6-public/log.c:240-248 | when no transaction is in memory, as when sync returns 0, the whole history is on disk |
| `LogSafety.DurableForever` | xv6-public/log.c:115-207 | in every run, no later event takes an entry of the durable history back |
| `LogSafety.DurableOnDisk` | xv6-public/log.c:115-207 | in every orderly run, what a header write made durable is on every disk recovered later, as the start of the history whose replay that disk is |
| `LogSafety.SpaceSafe` | xv6-public/log.c:125-248 | in every run, whenever sync is called, logged blocks plus unused budgets of outstanding operations never exceed LOGSIZE, and logged numbers are distinct and at most 29 |
| `LogSafety.QuietAdmits` | xv6-public/log.c:125-179 | in every run, with nothing outstanding and no end_op committing, at most half the log is used, the next begin_op is admitted and nobody is left asleep |
| `LogSafety.BeginsIff` | xv6-public/log.c:124-141 | in every run, a begin_op is admitted exactly when no end_op is committing and logged blocks plus 10 for each operation are at most 30; otherwise it sleeps; nothing else changes |
| `LogSafety.EndsIff` | xv6-public/log.c:143-179 | in every run, an end_op starts a commit exactly when it is the last operation and at least 16 blocks are logged, otherwise it wakes the sleepers; transaction, cache and disk stay |
| `LogLimit.QuietWith` | xv6-public/log.c:143-179 | for every k up to 15, some run comes to rest with exactly k blocks logged and not committed |
| `LogRun.SleepStepIff` | xv6-public/log.c:125-248 | an event leaves a sleeper in begin_op that would be admitted exactly when a commit resets the log while nobody has set committing |
| `LogSafety.SleepRunIff` | xv6-public/log.c:125-248 | whoever sleeps in begin_op would be turned away at every moment of a run if and only if no event of the run is such a one |
| `LogSafety.SleepersMustWait` | xv6-public/log.c:125-179 | in every orderly run whoever sleeps in begin_op would be turned away if it looked again |
| `LogHalf.SyncForgets` | xv6-public/log.c:125-248 | one run in full: a sync's commit makes room and a process sleeps on in begin_op |
| `LogSafety.CommitAlone` | xv6-public/log.c:182-207 | a commit that nothing disturbs makes exactly the writes of CommitWrites, in order |
| `LogSync.OrderExact` | xv6-public/log.c:124-248 | a sync or a begin_op keeps the order if and only if every orderly continuation can be cut by a crash at any point without showing half an operation |
| `LogHalf.SyncShowsHalf` | xv6-public/log.c:187-248 | one run in full: a sync with nothing outstanding, an operation that begins before it returns, and a recovered disk that shows a write of that operation, which has not ended |
| `LogSafety.SerialSafe` | xv6-public/log.c:145-179 | one operation at a time: no panic, and at most 25 blocks in the transaction, whenever sync is called |
| `LogSafety.StopsIff` | xv6-public/log.c:218-226 | a log_write within budget panics exactly when 29 blocks are logged |
| `LogLimit.ReservedWriteStops` | xv6-public/log.c:132-226 | some run of admitted operations within budget reaches the panic of log_write |
| `LogImpl.Log.CopyBlock` | xv6-public/log.c:74-81 | one turn of a copying loop over the cache: two buffers are taken and released, one block is written; it cannot fail while a buffer is spare and the home block is pinned, or two are spare |
| `LogImpl.Log.WriteLog` | xv6-public/log.c:181-195 | issues the log-block writes in order, copying what is cached |
| `LogImpl.Log.InstallTrans` | xv6-public/log.c:68-82 | issues the home writes in order from the log blocks and unpins each block |
| `LogImpl.Log.WriteHead` | xv6-public/log.c:98-113 | issues one write of the header block that names the in-memory transaction |
| `LogImpl.Log.Commit` | xv6-public/log.c:197-207 | the disk is the old one after a prefix of CommitWrites, all of it if one buffer is neither pinned nor held; then nothing is pinned and the disk holds what was cached |
| `LogImpl.Log.ReadHead` | xv6-public/log.c:84-96 | the in-memory transaction is the one in the header block |
| `LogImpl.Log.RecoverFromLog` | xv6-public/log.c:115-122 | the disk is the old one after a prefix of RecoverWrites, all of it if two buffers are free; then it is the recovered disk and the log is ready |
| `LogImpl.Log.BeginOp` | xv6-public/log.c:124-141 | admits exactly when not committing and the logged blocks plus 10 for each operation, this one included, are at most 30; counts the operation in |
| `LogImpl.Log.LogWrite` | xv6-public/log.c:218-238 | absorbs a block already logged, appends a new one at the end, pins it, and goes through exactly with fewer than 29 blocks logged and an operation outstanding |
| `LogImpl.Log.EndOp` | xv6-public/log.c:143-179 | commits exactly when no other operation is outstanding and at least 16 blocks are logged, and then everything cached is on disk; otherwise transaction, cache and disk stay; panics if already committing |
| `LogImpl.Log.Sync` | xv6-public/log.c:240-248 | whatever is outstanding, undisturbed it returns 0 with everything cached on disk |
| `BufCache.BreadKeeps` | xv6-public/bio.c:61-106 | bread keeps the cache invariant and every other block's contents, and its buffer holds the block's current contents |
| `BufCache.BrelseKeeps` | xv6-public/bio.c:118-141 | releasing a buffer keeps the invariant, the contents and the pinned set |
| `CacheRun.CacheRefinesDisk` | xv6-public/bio.c:38-141 | in every run the list is a permutation of all buffers, no block has two, the disk holds what bwrite wrote, and logged blocks stay cached, valid and dirty |
| `CacheRun.ReadsLastWrite` | xv6-public/bio.c:96-106 | bread returns the last contents written, in every run |
| `CacheRun.VictimExists` | xv6-public/bio.c:78-92 | bget finds a buffer whenever pinned blocks and held buffers do not fill the cache |
| `CacheLru.LeastRecent` | xv6-public/bio.c:61-93 | in every run, for a block that is not cached bget recycles, of the buffers neither held nor logged, the one that was let go longest ago |
| `CacheBound.Process.AlwaysSpare` | xv6-public/log.c:154-158 | over log and cache together the pinned blocks are the transaction, at most 25, so with at most four buffers held one is always spare |
| `CacheBound.Process.End` | xv6-public/log.c:143-179 | over log and cache together an end_op with 16 blocks or more leaves everything cached on disk and the log empty; with fewer it writes nothing |
| `CacheBound.Process.Serve` | xv6-public/bio.c:78-92 | a process that does one operation at a time within its budget, holding at most three buffers when it asks for another, never meets a panic of bread, log_write or end_op, for any list of calls; what is cached, on disk, logged and held is as the plain model says |
| `CacheBound.Boot` | xv6-public/log.c:53-66 | the same from any disk used through this log: binit, recovery, then the calls |
| `BufCacheImpl.BCache.constructor` | xv6-public/bio.c:38-56 | the linked list is built in the order of the model and no buffer holds a block |
| `BufCacheImpl.BCache.Bget` | xv6-public/bio.c:61-93 | the search along the links finds the buffer, or recycles the victim, that the model does |
| `BufCacheImpl.BCache.Bread` | xv6-public/bio.c:95-106 | the linked cache moves as the model's bread and returns the block's current contents |
| `BufCacheImpl.BCache.Bwrite` | xv6-public/bio.c:108-116 | the write reaches the disk, and the buffer is clean again |
| `BufCacheImpl.BCache.Iderw` | xv6-public/memide.c:38-60 | transfers one block either way, by the dirty flag |
| `BufCacheImpl.BCache.Brelse` | xv6-public/bio.c:118-141 | unlinking and relinking at the head gives the model's list |
| `Fs.FileSys.Balloc` | xv6-public/fs.c:55-78 | takes the lowest free block, zeroed and marked; panics exactly when none is free |
| `Fs.FileSys.Bfree` | xv6-public/fs.c:80-95 | clears exactly that block's bit; panics exactly when it is clear already |
| `Bitmap.FlipBitOnly` | xv6-public/fs.c:65-69 | changing one bit of a map block changes no other |
| `FsTree.PlaceOfBlock` | xv6-public/fs.c:372-465 | bmap's index split maps every block number below MAXFILE to a data place and back |
| `FsTree.BlockOfPlace` | xv6-public/fs.c:372-465 | and every data place is the image of one |
| `FsTree.PlaceInOrder` | xv6-public/fs.c:372-465 | the split keeps the order: direct, single, double, triple indirect, and index by index within each |
| `FsTree.GrownTook` | xv6-public/fs.c:372-465 | taking one more block on the way keeps the forest and everything kept before |
| `FsTree.LinkedAt` | xv6-public/fs.c:372-465 | storing a fresh zeroed block's number at one place changes what is kept there and nowhere else |
| `Fs.FileSys.EntryAt` | xv6-public/fs.c:389-395 | one step down an index block, allocating if absent |
| `Fs.FileSys.Bmap` | xv6-public/fs.c:370-465 | the block is there, in a well-formed forest; nothing kept before moved or changed; at most four fresh zeroed blocks were taken; panics only beyond MAXFILE or on a full disk when the block was absent |
| `FsFree.Apart` | xv6-public/fs.c:472-559 | what is kept under different entries is different, so no block is reached twice |
| `Fs.FileSys.FreeBelow` | xv6-public/fs.c:486-555 | frees exactly what is kept below an index block, each block while still in use, holding at most three buffers |
| `Fs.FileSys.Itrunc` | xv6-public/fs.c:467-559 | frees exactly the blocks of the inode at all four shapes and never meets a free one; the empty inode is on disk; other inodes keep everything |
| `FsRoundTrip.MapAndTruncate` | xv6-public/fs.c:370-559 | after any sequence of bmap calls on an empty inode, itrunc restores the free map |
| `FsInode.StoreLoad` | xv6-public/fs.c:216-236 | an inode record reads back as stored, and the seven beside it are untouched |
| `FsInode.RecordLayout` | xv6-public/fs.h:31-38 | an inode record, byte by byte: four shorts, the size and the addresses, little-endian, 64 bytes apart |
| `Fs.FileSys.Iupdate` | xv6-public/fs.c:216-236 | the record on disk is the in-memory inode |
| `FsFile.SplicedContent` | xv6-public/fs.c:605-635 | a write, as contents: the old bytes before off, the new ones, the old ones after |
| `FsFile.OthersContent` | xv6-public/fs.c:605-635 | no byte of any other file changes |
| `FsFile.SplicedTwice` | xv6-public/file.c:196-215 | two consecutive splices are one |
| `FsIo.Readi` | xv6-public/fs.c:576-600 | returns the slice at off clipped to the size, fails exactly on a bad offset or 32-bit overflow, and takes and logs no block |
| `FsIo.Writei` | xv6-public/fs.c:605-635 | splices the bytes in, grows the size as far as needed, leaves the in-memory inode equal to the record on disk, and takes no block unless it grows the file; fails exactly beyond the size or MAXFILE blocks; panics only when it reaches a block past the end that the file does not have and none is free, so never within the file |
| `FsBudget.CrossOnce` | xv6-public/fs.c:372-465 | four consecutive file blocks cross into another index block at most once |
| `FsBudget.ChunkBound` | xv6-public/fs.c:605-635 | a write over at most four blocks of a mapped file logs at most four data and four index blocks besides the free map and the inode record |
| `FsBudget.ChunkLogFits` | xv6-public/file.c:190-208 | so it fits MAXOPBLOCKS when its allocations touch one free-map block |
| `FileIo.Fileread` | xv6-public/file.c:158-176 | reads at the offset and moves it by the bytes read |
| `FileIo.Filewrite` | xv6-public/file.c:179-219 | for any n the chunk loop is one splice of n bytes that moves the offset by n; fails exactly when refused by writei, with the chunks before that written; the operations it runs are one per 1536 bytes, each within its log budget, and one that logs nothing for a chunk refused; on a well-formed file system each is a whole write of the next piece of the data; panics only past the old end on a full disk |
| `FsImage.FreshImage` | xv6-public/mkfs.c:111-112 | zeroed inode records, with the blocks before the data marked in use, are a well-formed file system of empty files |
| `FsImage.SameImage` | xv6-public/fs.c:216-236 | the files depend on no block below the inode records, the log area included |
| `FsImage.WroteImage` | xv6-public/fs.c:605-635 | what writei leaves on disk is a well-formed file system in which one file has the bytes and all others are as they were |
| `FsImage.NoWrite` | xv6-public/file.c:196-209 | an operation in which writei refused its chunk is a write of nothing |
| `FsCrash.CrashFiles` | xv6-public/file.c:190-215 | in every orderly run of operations that make whole writes, a crash at any block write recovers to a well-formed file system with the files after exactly the writes whose operations ended durably |
| `FsCrash.CachedFiles` | xv6-public/log.c:210-238 | with nothing outstanding the cache holds the files after all writes |
| `FsCrash.WritesStay` | xv6-public/log.c:115-207 | no later event, crash included, takes back a write whose operation ended durably |
| `FsClient.Perform` | xv6-public/log.c:125-141 | from rest an operation within its budget is admitted and all its writes go into the transaction |
| `FsClient.Settle` | xv6-public/log.c:143-207 | after end_op a commit, if one is due, runs to its end and leaves the log at rest |
| `FsClient.FilewriteCrash` | xv6-public/file.c:179-219 | the operations of a filewrite, each within MAXOPBLOCKS, can be performed from rest, and cut short anywhere leave after recovery a well-formed file system with a whole number of the chunks, in order, and with all that was durable before |
| `PipeSpec.PutInFlight` | xv6-public/pipe.c:93 | a byte put in goes behind those in flight, also where the counters wrap |
| `PipeSpec.TakeInFlight` | xv6-public/pipe.c:116 | a byte taken is the first in flight |
| `PipeRun.DeliversInOrder` | xv6-public/pipe.c:78-121 | in every interleaving the bytes delivered are a prefix of those accepted, at most 512 in flight, with the counters right past 2^32 |
| `PipeCalls.WriteExactly` | xv6-public/pipe.c:77-98 | one section of pipewrite puts in the next bytes of its data, as many as there is room for, and returns their number when all are in, -1 when nobody can read or it is killed, and else sleeps at the next byte |
| `PipeCalls.ReadExactly` | xv6-public/pipe.c:100-121 | one section of piperead takes the oldest bytes, as many as there are up to n, and returns how many; with none it waits, or returns -1 when killed, or 0 when the write end is closed |
| `PipeCalls.CallsHonest` | xv6-public/pipe.c:77-121 | in every run, whatever others do, what a pipewrite at position i has put in is the first i bytes of its data; returned with its length, all of it; with -1, a proper part; a piperead has taken as many bytes as it returns, and none before |
| `PipeCalls.EmptyRead` | xv6-public/pipe.c:100-121 | in every run, a piperead that takes nothing was asked for nothing, or nothing was there and none could come or it was killed |
| `PipeCalls.KilledAwake` | xv6-public/proc.c:890-912 | in every run nobody sleeps on once killed |
| `PipeRun.WakeStepIff` | xv6-public/pipe.c:59-121 | exactly which steps leave a sleeper that should have been woken |
| `PipeRun.WakeRunIff` | xv6-public/pipe.c:59-121 | with any kills and closes: at every moment of a run each sleeper has reason to sleep if and only if no step of the run is such a one |
| `PipeRun.NoLostWakeup` | xv6-public/proc.c:831-888 | with no writer killed and the read end closed only when nobody reads, whoever else is killed and whenever the write end is closed, a sleeping reader has an empty pipe and an open write end, a sleeping writer a full one and an open read end |
| `PipeRun.LostWakeup` | xv6-public/pipe.c:83-92 | a run that loses a wakeup when an end is closed under a sleeper |
| `PipeImpl.PipeDev.WakeAll` | xv6-public/proc.c:867-879 | wakes exactly the threads asleep on the channel |
| `PipeImpl.PipeDev.Pipewrite` | xv6-public/pipe.c:77-98 | one critical section moves the state as the model's step; in bytes: what fits of the rest of the data goes in behind what is there, and the answer is the length, -1 or sleep, as WriteExactly |
| `PipeImpl.PipeDev.Piperead` | xv6-public/pipe.c:100-121 | one critical section moves the state as the model's step; in bytes: exactly the oldest min(n, there) bytes accepted and not delivered, and the answer as ReadExactly |
| `PipeImpl.PipeDev.Pipeclose` | xv6-public/pipe.c:59-75 | closes an end, wakes the other side, and says when the pipe is gone |
| `VmImpl.Kernel.Kfree` | xv6-public/kalloc.c:59-80 | the page heads the free list, filled with junk; panics exactly outside the pool |
| `VmImpl.Kernel.Kalloc` | xv6-public/kalloc.c:82-95 | takes the head of the free list |
| `VmImpl.Kernel.Freerange` | xv6-public/kalloc.c:46-53 | exactly the whole pages of the range become free |
| `VmSpec.AddTable` | xv6-public/vm.c:35-55 | a new table changes no entry and is owned by the space; what the pages below it grant is left to their own entries |
| `VmSpec.StorePte` | xv6-public/vm.c:60-80 | storing an entry changes no other |
| `VmSpec.RightsOpen` | xv6-public/vm.c:32-55 | in a space whose directory entries withhold nothing, an access meets exactly the page and the bits of the second-level entry |
| `VmImpl.Kernel.Walkpgdir` | xv6-public/vm.c:32-55 | finds or makes the table without changing any entry, with a directory entry that withholds no right; fails to make one only when no page is free |
| `VmImpl.Kernel.Mappages` | xv6-public/vm.c:57-80 | maps every page that the bytes touch to consecutive pages, user or kernel, stops exactly where a page is mapped already or no page is free, and pays one page per new table |
| `VmRun.Setupkvm` | xv6-public/vm.c:103-136 | succeeds exactly with 65 free pages, which it uses; then the kernel rows and nothing else are mapped, and every page of the kernel's half grants what it must: nothing to user code, physical memory at its own place and writable but for text and read-only data, the devices; otherwise every page is given back |
| `VmRun.HalfRights` | xv6-public/vm.c:103-136 | the rows of kmap, as rights over both levels for every page of the kernel's half, in numbers of pages |
| `VmImpl.Kernel.Allocuvm` | xv6-public/vm.c:219-249 | maps fresh zeroed pages up to newsz that user code may read and write, or gives every page back; two free pages per page asked for suffice |
| `VmImpl.Kernel.Deallocuvm` | xv6-public/vm.c:251-279 | with the jump over absent tables, unmaps and frees exactly the mapped pages of the range, each once; panics exactly when the range goes on into the kernel's half |
| `VmImpl.Kernel.Freevm` | xv6-public/vm.c:281-298 | every page of the space is free again, none twice |
| `VmRun.Growproc` | xv6-public/proc.c:489-511 | the size becomes the one asked for or stays, exactly when; what lies below the smaller size keeps mapping and contents, new pages are zeroed and open to user code, the space is unmapped above its size |
| `VmRun.Lifetime` | xv6-public/vm.c:118-298 | setupkvm, any sequence of allocuvm and deallocuvm with any sizes, with or without memory, freevm: the free list holds the same pages, none twice, unless a call clashes with those before it; with memory for all calls it stops at the first clash |
| `VmRun.ChainedNeverClash` | xv6-public/proc.c:489-511 | calls sized as growproc sizes them while its allocations succeed never clash; ProcessLife covers the rest |
| `VmRun.SamePageTwice` | xv6-public/vm.c:57-80 | two calls that do clash |
| `VmRun.ProcessLife` | xv6-public/proc.c:489-511 | sized as growproc does it, with or without memory, neither panic is met and the free list ends with the same pages |
| `VmRun.Copyuvm` | xv6-public/vm.c:313-345 | every page below sz has a copy with equal contents, flags and rights under the kernel's own half with its rights, the source is untouched; out of memory gives all pages back |
| `FreeList.InsertApart` | xv6-public/umalloc.c:24-44 | freeing a block keeps free blocks ordered, disjoint and never adjacent |
| `FreeList.InsertUnits` | xv6-public/umalloc.c:24-44 | exactly its units become free |
| `FreeList.InsertLinked` | xv6-public/umalloc.c:32-43 | the headers form one ring in address order with a single wrap |
| `FreeList.CarveUnits` | xv6-public/umalloc.c:75-84 | exactly the units handed out stop being free |
| `Umalloc.UnitsSuffice` | xv6-public/umalloc.c:69 | the block is large enough exactly when the 32-bit sum does not wrap, and then one unit less would not do |
| `Umalloc.Heap.FindPlace` | xv6-public/umalloc.c:30-32 | the search ends within one round at the one right place |
| `Umalloc.Heap.Free` | xv6-public/umalloc.c:24-44 | a live allocation becomes free units, joined with its neighbours, and the next search starts at the block before it; all invariants are kept |
| `Umalloc.Heap.Morecore` | xv6-public/umalloc.c:46-61 | what sbrk grants becomes free, in at least 4096 units |
| `Umalloc.Heap.Malloc` | xv6-public/umalloc.c:63-90 | a new live allocation of the units asked for, from the tail of the first free block large enough behind the last search (next fit); sbrk is asked once and only if no block is large enough; the search ends |
| `ShellSpec.GetToken` | xv6-public/sh.c:265-308 | tokens advance, and a word is a maximal run of word characters |
| `ShellSpec.Parse` | xv6-public/sh.c:327-446 | terminates on every line; an accepted line is consumed whole and all words of the tree are words of it; the panic of parseblock is never reached |
| `ShellAccepts.RedirsRead` | xv6-public/sh.c:374-397 | wherever redirections by <, > or >> stand, in any number and spacing, they are read in order: < for input, > and >> for output |
| `ShellMeans.RedirsMean` | xv6-public/sh.c:374-397 | and conversely: what was consumed is such redirections to exactly these files, and white space |
| `ShellAccepts.ReadsLine` | xv6-public/sh.c:344-359 | every layout of a line is read as the command it means, wherever it stands, followed by what may follow it |
| `ShellAccepts.Accepts` | xv6-public/sh.c:327-446 | every line that spells a command is accepted and gives that command |
| `ShellMeans.LineSeen` | xv6-public/sh.c:344-359 | what parseline consumes is a layout of the command it returns, and white space |
| `ShellMeans.Means` | xv6-public/sh.c:327-446 | every accepted line spells the command it parses to |
| `ShellMeans.ParsesIff` | xv6-public/sh.c:327-446 | the parser and the grammar agree: a line parses to a command if and only if it spells it |
| `ShellMeans.Unambiguous` | xv6-public/sh.c:327-446 | a line spells at most one command, and none if it is rejected |
| `ShellRoundTrip.RoundTrip` | xv6-public/sh.c:327-446 | the canonical text of a command whose words are words, with fewer than ten arguments per exec, parses to that command |
| `ShellRoundTrip.WritableIff` | xv6-public/sh.c:415-446 | and no other command can be written as a line at all |
| `ShellImpl.Parser.Gettoken` | xv6-public/sh.c:265-308 | the cursor moves as the model's token says |
| `ShellImpl.Parser.Peek` | xv6-public/sh.c:310-320 | skips spaces and reports the symbol |
| `ShellImpl.Parser.Parseredirs` | xv6-public/sh.c:374-397 | the loop reads the model's redirections; what the cursor passed is redirections by <, > or >> to exactly these files, < for input and the others for output, and white space |
| `ShellImpl.Parser.Parseexec` | xv6-public/sh.c:415-446 | reads the model's command at this level |
| `ShellImpl.Parser.Parseblock` | xv6-public/sh.c:399-413 | reads the model's command at this level |
| `ShellImpl.Parser.Parsepipe` | xv6-public/sh.c:361-372 | reads the model's command at this level |
| `ShellImpl.Parser.Parseline` | xv6-public/sh.c:344-359 | reads the model's command at this level |
| `ShellImpl.Parser.Nulterminate` | xv6-public/sh.c:448-493 | a NUL goes behind every word and nothing else changes |
| `ShellImpl.WordsRead` | xv6-public/sh.c:448-493 | every word then reads, as a NUL-terminated string, as its own text |
| `ShellImpl.Parser.Parsecmd` | xv6-public/sh.c:327-342 | the tree of the model with its words terminated in the buffer, or the model's error; the line spells exactly the command returned, and none after an error |

## Left out

- Directories, path lookup, link counts, inode allocation, system calls and their arguments.
- The scheduler, threads, process creation and exit; of `proc.c` only sleep, wakeup and growproc are here, as atomic steps.
- Locks, interrupts, memory ordering, real disk hardware: a critical section is one step, a block write is atomic.
- `filepwrite`, which passes the same offset for every chunk.
- Device inodes: `readi` and `writei` return the outcome `Device` without modelling the driver or the check of the device number.
- The budget of operations other than `filewrite` chunks is an assumption on clients of the log; truncating a large file can touch all ten free-map blocks.
- The superblock: the layout that `mkfs` writes (log at block 2, inodes at 32, free map at 58, data from 68) is fixed as constants.
- LogImpl.Log.BeginOp: one look at the log; the loop that sleeps and looks again is the event machine of `LogRun`.
- LogImpl.Log.Sync: runs undisturbed, like every method of the class; operations that interleave with it are the event machine of `LogRun`.
- LogSync.OrderExact: takes a block that the operation may log and contents that this block never had, so that the half that survives can be told from the rest.
- CacheBound.Process.Serve: one process; with several at once the bound on pinned and held buffers does not hold.
- Fs.FileSys.Bread: the class runs over the disk as seen through the cache and the log; `FsClient` performs what it records in the log's machine, over cached contents that `CacheRun` proves the cache presents.
- Fs.FileSys.FreeBelow: stands for the nested loops of itrunc at one, two and three levels as one recursive method; the order of frees is the same.
- Fs.FileSys.Bmap: the addresses of an inode and the words of an index block are sequences in fields, so aliasing between buffers is not modelled.
- FsIo.Writei: after the panic for a full disk only why it came is stated; that operation never ends, so a recovery shows nothing of it.
- FsCrash.CrashFiles: clients other than `filewrite` (truncation, directories) are not shown to make whole writes, and that operations which overlap amount to writes in some order is a condition on the run.
- FsClient.FilewriteCrash: one `filewrite` at a time, with the commit that its `end_op` starts run before its next chunk; other schedules are runs of CrashFiles.
- PipeImpl.PipeDev.Pipewrite: takes the bytes as a sequence, so a negative count is not modelled.
- VmImpl.Kernel.Kfree: the free list is a sequence, not a list linked through the free pages.
- VmImpl.Kernel.Mappages: takes the physical address as a page number and a range that is not empty and does not wrap; no caller passes another.
- VmRun.Lifetime: takes no `deallocuvm` that starts inside the kernel's half, as Deallocuvm.
- VmImpl.Kernel.Deallocuvm: a range that starts inside the kernel's half is not modelled; the source would free the kernel's own pages.
- VmRun.Copyuvm: after the panic for an absent page the pages taken so far are not given back, as in the source.
- Umalloc.Heap.Malloc: a request that would make sbrk's argument negative or zero as a 32-bit int ends in the outcome `Overflow`; what the kernel then does is not modelled. The address space is unbounded.
- ShellImpl.Parser.Parseexec: redirections are collected and wrapped around the command when it is complete, where the source fills in the arguments of a command already wrapped; the tree is the same.
