# Verification of the xv6 kernel and its tools

A Dafny model of the parts of this xv6-derived system whose correctness does not follow from
reading one function, and proofs about it. `dafny verify dfyconfig.toml` checks everything.

The modules follow the system:

- **Blocks**: bytes, little-endian words and bitmap bits of a disk block.
- **LogMachine**: the write-ahead log as a machine of single-block disk writes, locked sections
  and crashes. Crash atomicity and admission are theorems about every run.
- **LogBudget**: exactly when log_write can panic or overrun the log, for operations that keep to a
  budget.
- **Transactions**: sequences of whole transactions as runs of the machine, cut off anywhere.
- **BufferCache**: bio.c with its doubly linked ring as arrays of pointers, and what readers see.
- **Log**: log.c as it runs over the buffer cache, while readers hold other buffers. Every method
  is a run of LogMachine, so the theorems hold of the code.
- **Boot**: a client of Log from power-on to its first committed operation.
- **Inodes**, **Growth**, **Writing**, **Fs**: inodes in their blocks, block allocation, block
  mapping, reading, writing, truncating and the chunking of filewrite, against the bitmap, the owner
  of every block, the number of free blocks and the exact set of logged blocks.
- **FullChunk**: a disk on which one chunk of filewrite uses the whole log budget.
- **FileCrash**: filewrite over the log: after a crash anywhere, recovery gives a consistent file
  system holding the chunks committed.
- **Mkfs**: how mkfs.c establishes what fs.c keeps.
- **Heap**: the user allocator with its circular free list in memory.
- **SleepWakeup**: sleep, wakeup, kill and the sleep lock, for any number of processes.
- **ProcTable**: fork, exit, wait and kill over the process table.
- **Pages**, **Vm**: physical pages, two-level page tables, and the operations of vm.c with a
  failure possible at every allocation.
- **Links**: link counts, names and the life of inodes over sys_link, sys_unlink and create.
- **Shell**: the parser of sh.c and nulterminate.
- **Grep**: the matcher of grep.c.
- **Pipe**, **Console**: the two rings with indices that wrap at 2^32.
- **UserTable**: the user table of usermanage.c and /passwd.

Locks are not modelled as such: a section under a lock, or between two sleeps, is one step or one
method, and interleaving is over those. Code that updates memory in place is a class with methods
and loops; each method is proved equal to a function or a run of a machine, and the theorems are
about those. Panics are results of their own or preconditions that the callers are shown to meet.

Where a property is not quite true of the code, the model keeps the code, a lemma shows the
failing case and another says exactly when the property holds:

- mkfs gives the log LOGSIZE blocks including its header, so the guard of log_write is one short
  of what begin_op reserves for new blocks (SmallLogPanics, SmallLogRace, RoomIffLargeLog).
- log_write compares the length of the list before it looks whether the block is listed, so when
  three operations have filled the list, logging a listed block again panics, however large the log
  (FullPanics). The exact condition is on the blocks that operations add (SafeIff, BudgetOfMkfs).
- NBUF equals LOGSIZE, so a transaction of LOGSIZE blocks would leave no buffer for its own commit
  (FullCacheBlocks), and a shorter one does so when readers hold the remaining buffers. The commit
  goes through exactly when some buffer is idle (Log.WriteLog, Log.Commit, Log.EndOp, SomeIdle).
- mkfs rounds the root directory to one block too many when its size is a multiple of BSIZE
  (RoundedDense).
- nunits in malloc wraps for requests within 8 bytes of 2^32 (UnitsSuffice), and above 0x7FFFFFF0
  bytes sbrk's argument is not positive unless it wraps to a small one (SbrkGrows).
- kill(0), and kill of a pid left behind by a failed fork, mark a free slot, and the next process
  in it is born killed (KillZero, StaysClean); without such events only a kill of its pid marks a
  process (KilledByName).
- creating or linking in a directory that was unlinked meanwhile breaks link counts
  (CreateCountsIffLinked, LinkCountsIffLinked, RemovedWorkingDirectory).
- uids stay sound until next_uid wraps (AddKeepsIff).

## Model

| member | source | states |
|---|---|---|
| LogMachine.EncodeHeader | xv6-public/log.c:101-113 | the header block written from a list of block numbers reads back as exactly that list |
| LogMachine.CrashAtomicity | xv6-public/log.c:68-122 | for every run of begin/log/end/commit/install/crash/recovery steps, stopped anywhere: recovering the disk as it stands gives every home block the contents left by exactly the transactions whose header write reached the disk, and while no commit is under way the cache shows those plus the pending writes |
| LogMachine.BootAtomicity | xv6-public/log.c:53-122 | the same from power-on with any committed transaction on disk, for every run, with crashes in the middle of recovery: the contents to start from are the recovered ones |
| LogMachine.CommitsWholeOperations | xv6-public/log.c:143-174 | in every run, when a header write reaches the disk no operation is between begin_op and end_op: a transaction never holds part of an operation |
| LogMachine.HomeWritesAreInstalls | xv6-public/log.c:176-202 | in every run a step that changes a home block on disk is the install of that block, with the block listed in the header on disk |
| LogMachine.LogAdmission | xv6-public/log.c:125-141 | in every run the header list has distinct home blocks, it fits in LOGSIZE together with the unspent budgets of the operations under way, outstanding counts exactly the open operations, and it is 0 while committing |
| LogMachine.ListFixedWhileCommitting | xv6-public/log.c:192-202 | in every run the list of a commit under way changes only by being erased, by the last header write or a crash |
| LogBudget.PanicIffFull | xv6-public/log.c:218-219 | after every run log_write of an open operation panics if and only if the list is at the limit, whether or not the block is listed already |
| LogBudget.ListBound | xv6-public/log.c:125-141 | in every run whose operations each add at most budget blocks the list never exceeds MAXOPBLOCKS + 2*budget |
| LogBudget.FullPanics | xv6-public/log.c:218-230 | whenever the limit is within that bound some such run reaches it, and then log_write of an operation within its budget panics, also of a listed block |
| LogBudget.SafeIff | xv6-public/log.c:213-233 | operations that each add at most budget blocks can log new blocks and log blocks again without panic or overrun, in every interleaving, if and only if MAXOPBLOCKS + 2*budget is below the limit |
| LogBudget.BudgetOfMkfs | xv6-public/param.h:10-11 | for every log of at least LOGSIZE blocks that is the case if and only if budget < MAXOPBLOCKS: no log size makes the full budget safe |
| LogBudget.RoomIfLarge | xv6-public/log.c:213-233 | with log.size > LOGSIZE an operation that has not spent its budget can log a new block: the list has room, outstanding is at least 1 and no commit is under way |
| LogBudget.SmallLogPanics | xv6-public/mkfs.c:25 | with log.size <= LOGSIZE, which is what mkfs makes, some run lets an operation with budget left reach the "too big a transaction" panic on a new block |
| LogBudget.SmallLogRace | xv6-public/log.c:218-223 | the size check is made before the lock is taken: with such a log two operations can both pass it for the last free slot and the second overruns the log |
| LogBudget.RoomIffLargeLog | xv6-public/log.c:132-134 | begin_op's reservation leaves every operation room for the new blocks of its budget if and only if log.size > LOGSIZE; logging a listed block again is the subject of SafeIff |
| Transactions.TxnAtomicity | xv6-public/log.c:143-202 | a sequence of transactions, the last one unfinished, stopped after any event: the recovered home blocks are the old ones with exactly the first c transactions applied, c being the header writes so far |
| Transactions.BootTxnAtomicity | xv6-public/log.c:115-122 | the same with a recovery in front, stopped anywhere in it too |
| BufferCache.Unlink | xv6-public/bio.c:132-133 | removing a node by its two neighbours' pointers leaves the doubly linked ring of the remaining nodes, in order |
| BufferCache.PushFront | xv6-public/bio.c:134-137 | the four pointer writes that insert a buffer behind the head give the ring with it first |
| BufferCache.Cache.constructor | xv6-public/bio.c:38-56 | after binit every buffer is on the ring, last one first, none holds a block, and readers see the disk |
| BufferCache.Cache.FindHolder | xv6-public/bio.c:68-77 | the walk along next finds the buffer of a block if and only if some buffer holds it |
| BufferCache.Cache.FindIdle | xv6-public/bio.c:79-91 | the walk along prev finds an idle clean buffer if and only if there is one, and it is the least recently used of them |
| BufferCache.Cache.Bget | xv6-public/bio.c:61-93 | exactly one buffer changes, the holder of the block or else the least recently used idle one; None, the panic, if and only if there is neither; the cache stays coherent |
| BufferCache.Cache.Bread | xv6-public/bio.c:96-106 | hands out a referenced buffer with the current contents of the block; disk and what readers see stay |
| BufferCache.Cache.Bwrite | xv6-public/bio.c:109-116 | exactly this block changes on disk, to what readers already saw, and the buffer is clean |
| BufferCache.Cache.Brelse | xv6-public/bio.c:120-141 | drops one reference; the last one moves the buffer to the front and leaves the order of the others; coherence, which needs a dropped clean buffer to equal its disk block, is kept |
| BufferCache.HandOutCoherent | xv6-public/bio.c:61-93 | recycling an idle clean buffer keeps the rule that each block is cached at most once and that a block whose contents differ from the disk is cached |
| BufferCache.StoreCoherent | xv6-public/bio.c:96-106 | changing the data of a held buffer changes what readers see of that block and of no other |
| BufferCache.WriteCoherent | xv6-public/memide.c:38-60 | the disk write of a held buffer keeps coherence: one block of the disk changes, to the buffer's data |
| BufferCache.DropCoherent | xv6-public/bio.c:120-141 | dropping the last reference is coherent when the buffer is dirty or equals the disk |
| Log.FillHeader | xv6-public/log.c:107-110 | the loop that stores n and the block numbers makes the header buffer encode exactly that list |
| Log.TakeHeader | xv6-public/log.c:91-94 | the loop that reads n and the block numbers fills the array with the list the header encodes |
| Log.Log.constructor | xv6-public/log.c:53-66 | initlog up to recovery is the machine state Down with an empty list |
| Log.Log.WriteLog | xv6-public/log.c:177-190 | write_log over the real cache, other buffers being held by readers, is n LogBlock steps of the machine; it fails if and only if there is a block to log and no idle buffer |
| Log.Log.InstallTrans | xv6-public/log.c:69-82 | install_trans over the real cache is n Install steps of the machine |
| Log.Log.BeginOp | xv6-public/log.c:125-141 | one pass of begin_op's loop is the machine step Begin, or the branch that sleeps exactly when that step is blocked |
| Log.Log.Absorb | xv6-public/log.c:223-230 | the search loop of log_write leaves the list as it was if the block is there and appends it otherwise |
| Log.Log.LogWrite | xv6-public/log.c:213-233 | log_write panics exactly when the list is full or no operation is open, and then changes nothing; else it absorbs the block number and pins the buffer |
| Log.Log.Update | xv6-public/log.c:204-233 | bread, modify, log_write, brelse is the pair of machine steps Check and Append, or exactly the one of three panics whose cause is present: no buffer, too big a transaction, outside of trans |
| Log.Log.EndOp | xv6-public/log.c:145-174 | end_op is End, followed for the last operation by the steps of a whole commit and Finish; it fails if and only if it is the last one, has blocks to commit and finds no idle buffer |
| Log.Log.WriteHead | xv6-public/log.c:101-113 | write_head is the one machine step that commits |
| Log.Log.Commit | xv6-public/log.c:192-202 | commit is write_log, write_head, install_trans and the erasing header write, in this order, as machine steps, with the same exact failure |
| Log.Log.Recover | xv6-public/log.c:115-122 | recovery after any boot is the install of the list found on disk, the erasing write and the return into service: it ends in a state from which begin_op goes on and CrashAtomicity applies |
| Log.SomeIdle | xv6-public/bio.c:79-91 | while the list and the buffers that others hold are together fewer than the cache there is a buffer for the next bread |
| Log.FullCacheBlocks | xv6-public/param.h:10-12 | a transaction as long as the cache (NBUF equals LOGSIZE) pins every buffer: none is idle and none holds a log block, so the commit's bread would panic |
| Boot.FirstUpdate | xv6-public/log.c:53-66 | a client from power-on: initlog, begin_op, an update, end_op. The disk ends up recovered and updated, and stopped after any single step it recovers to the old contents or to the new ones |
| Inodes.IndirectBlocks | xv6-public/fs.c:380-408 | an indirect block is owned through its own slot, so it is neither metadata nor free nor a data block |
| Inodes.StoredInode | xv6-public/fs.c:224-242 | storing size and addresses into an inode block makes them readable back and leaves the other inodes of the block and the other fields of this one |
| Inodes.AttachEntry | xv6-public/fs.c:392-405 | giving an indirect entry a newly allocated block keeps the rule that the bitmap marks exactly metadata and the blocks referred to once each, and leaves every other reference |
| Inodes.StoreData | xv6-public/fs.c:512-518 | writing a data block changes no reference and no owner, and no other slot of any inode leads to that block |
| Inodes.ReleaseDirect | xv6-public/fs.c:422-427 | freeing a direct block and clearing its address keeps bitmap and references in agreement |
| Inodes.ReleaseEntry | xv6-public/fs.c:429-435 | freeing entry j while the indirect block still lists it keeps bitmap and references in agreement for all but the entries passed |
| Inodes.ReleaseIndirect | xv6-public/fs.c:436-438 | freeing the indirect block after its entries restores the full agreement |
| Growth.Conservation | xv6-public/fs.c:60-82 | a free block is lost for each slot that a write fills, and for nothing else: the free set shrinks by exactly the blocks put into the slots |
| Growth.LogBound | xv6-public/file.c:127-133 | the blocks that a write of n bytes logs, listed exactly, are never more than WriteCost(off, n) |
| Fs.FileSystem.Balloc | xv6-public/fs.c:60-82 | takes the lowest free block, marks only it and clears it; None, the panic, only when no block is free; the two logged blocks are named |
| Fs.FileSystem.Bfree | xv6-public/fs.c:85-99 | clears the bit of this block and no other |
| Fs.FileSystem.Bmap | xv6-public/fs.c:380-408 | returns the block of any file position below MAXFILE and fills exactly the slots that were empty on the way to it; it panics only with no block free before they are filled; all other references and all contents stay, and what is logged is known exactly |
| Fs.FileSystem.Readi | xv6-public/fs.c:466-490 | returns exactly the bytes off..min(off+n, size) of the contents and changes nothing; -1 exactly for an offset past the end or a wrapping sum |
| Fs.FileSystem.ReadInode | xv6-public/fs.c:294-319 | reading an inode from its block gives exactly the inode in memory |
| Fs.FileSystem.Iupdate | xv6-public/fs.c:224-242 | restores the agreement of every in-memory inode with its place on disk when only this one had changed, and logs one block |
| Fs.FileSystem.Writei | xv6-public/fs.c:495-525 | the contents become the old ones with src spliced in at off, all other files keep theirs, memory and disk inodes agree again, bitmap and references stay in agreement; the refusal is exact, it runs out of blocks if and only if there are fewer free ones than empty slots to fill, and the logged set is known exactly and bounded |
| Writing.WrittenStored | xv6-public/fs.c:512-518 | storing the next chunk extends what has been written so far and keeps ownership |
| Writing.WrittenContent | xv6-public/fs.c:520-524 | when the loop is done the contents are the old ones with the written bytes spliced in |
| Writing.ChunkCost | xv6-public/file.c:127-138 | a chunk of filewrite, wherever it starts, logs at most MAXOPBLOCKS blocks |
| FullChunk.WriteFullChunk | xv6-public/file.c:127-138 | the bound is reached: on a consistent disk with one free bit in each of four bitmap blocks, a chunk appended inside the last direct block is written and logs exactly MAXOPBLOCKS blocks |
| FullChunk.LogOfChunk | xv6-public/file.c:127-133 | which blocks those are, on any disk prepared like that |
| Fs.FileSystem.WriteChunk | xv6-public/file.c:140-145 | one transaction of filewrite: exact refusal and exhaustion, the exact set of logged blocks, and a trace of writes that leads from the old disk to the new |
| Fs.FileSystem.FileWrite | xv6-public/file.c:117-156 | the stages after 0, 1, 2, .. transactions are each a consistent file system with the bytes so far spliced in, each transaction is a trace of at most MAXOPBLOCKS blocks leading from one stage to the next, and count, -1 or panic come exactly when the offset says so |
| FileCrash.CrashConsistency | xv6-public/file.c:117-156 | filewrite stopped after any event of the log, in a commit or in a transaction that will panic: recovery gives the disk of a stage, the one the commits so far have reached, whose inodes read from disk form a consistent file system holding exactly the committed chunks |
| FileCrash.SafeWrite | xv6-public/file.c:117-156 | a call of filewrite on a mounted file system, stopped anywhere, has that property, and when it returns all its chunks are committed |
| Fs.FileSystem.Itrunc | xv6-public/fs.c:415-443 | the file becomes empty on disk too, exactly its blocks become free, every other file keeps inode and contents |
| Mkfs.BitmapBlock | xv6-public/mkfs.c:239-253 | the bitmap written by mkfs has exactly the bits below used set |
| Mkfs.Image.Iappend | xv6-public/mkfs.c:257-299 | appends exactly the given bytes to one file and leaves the others, keeping fs.c's invariants for the image with its bitmap; it fails if and only if the file would exceed MAXFILE or the image has fewer blocks left than slots to fill |
| Mkfs.Image.FixRoot | xv6-public/mkfs.c:158-163 | after rounding the root size up, every block below it exists if and only if the size was not already a multiple of BSIZE |
| Mkfs.Image.WriteBitmap | xv6-public/mkfs.c:239-253 | writing the bitmap last makes the image satisfy the invariant that fs.c keeps; refused exactly when a second bitmap block would be needed |
| Mkfs.Image.Finish | xv6-public/mkfs.c:157-168 | the finished image, mounted, satisfies the whole invariant of fs.c if and only if the root directory did not end on a block boundary |
| Mkfs.RoundedDense | xv6-public/mkfs.c:158-163 | size/BSIZE+1 blocks are all there if and only if size % BSIZE is not 0 |
| Mkfs.BootConsistent | xv6-public/mkfs.c:108-115 | the empty image with its metadata marked and its inodes stored is a consistent file system |
| Heap.UnitsSuffice | xv6-public/umalloc.c:69 | the units computed for a request hold it if and only if the request does not exceed 2^32 - 8 bytes |
| Heap.SbrkGrows | xv6-public/umalloc.c:52-54 | sbrk is asked for a positive amount, which is then the size of the new core, if and only if the request is at most 0x7FFFFFF0 bytes or wraps to a small one |
| Heap.Allocator.Free | xv6-public/umalloc.c:24-44 | the block leaves the live set, the circular list stays sorted, disjoint from live blocks and fully coalesced, free plus live units stay the same, and freep points at the freed block or its lower neighbour |
| Heap.Allocator.Malloc | xv6-public/umalloc.c:63-90 | for every 32-bit request: null if and only if sbrk was asked and refused, and then nothing is lost; any other result is a block of the computed size disjoint from all live ones; sbrk is asked at most once, and only when no free block was large enough |
| Heap.Allocator.Scan | xv6-public/umalloc.c:74-88 | the circular walk from freep finds a large enough block if and only if there is one |
| Heap.Allocator.FindPlace | xv6-public/umalloc.c:30-32 | free's walk from any freep ends between the two list neighbours of the block, also at the wrap of the list |
| Heap.Allocator.MoreCore | xv6-public/umalloc.c:46-61 | adds at least 4096 units to the heap, all of them free, after which the request can be met |
| Heap.Freed | xv6-public/umalloc.c:33-43 | the four pointer and size assignments of free leave exactly the list with the block inserted and joined with the neighbours it touches |
| SleepWakeup.NoLostWakeup | xv6-public/proc.c:426-483 | for any number of processes, in every state of every run: a process asleep while there is something to take will still be looked at by a wakeup under way, whether or not the waker released the lock first |
| SleepWakeup.NoDeadlock | xv6-public/proc.c:426-483 | when no process can go on, both locks are free and everyone is outside or asleep with nothing to take |
| SleepWakeup.MutualExclusion | xv6-public/sleeplock.c:22-42 | in every run in which only holders release, the lock word and the number of holders add up to one |
| SleepWakeup.FreeLockHasNoSleepers | xv6-public/sleeplock.c:34-42 | a free sleep lock with no release under way has no one asleep on it |
| SleepWakeup.StepInv | xv6-public/proc.c:466-483 | every step of acquire, sleep, wakeup1's scan, wakeup and kill keeps the invariant behind these results |
| ProcTable.ProcessTree | xv6-public/proc.c:185-273 | after every run of fork, exit, wait, kill and scheduling: pids in use are distinct and every parent pointer leads to a live process of smaller pid |
| ProcTable.AllDescendFromInit | xv6-public/proc.c:258-266 | after every run the parent chain of every started process, dead or alive, ends at init |
| ProcTable.WaitReturnsOnce | xv6-public/proc.c:280-320 | over every run wait returns each exited pid at most once, and the exited pids not yet returned are exactly those of the zombies |
| ProcTable.NoMissedExit | xv6-public/proc.c:255-271 | a process asleep in wait has no exited child |
| ProcTable.KillHitsItsTarget | xv6-public/proc.c:488-506 | kill with the pid of a process in use marks and wakes that process and changes no other slot |
| ProcTable.StaysClean | xv6-public/proc.c:488-506 | free slots stay unmarked across an event if and only if it is neither a kill whose first match is a free slot nor a failed fork of a killed child |
| ProcTable.KillZero | xv6-public/proc.c:488-506 | kill(0) as the first call marks a free slot, and the next child of fork is born killed |
| ProcTable.KilledByName | xv6-public/proc.c:488-506 | over every run without an event that marks a free slot (StaysClean says which do): no free slot is marked, so every process starts unmarked, and a process is marked as killed only if some kill of the run named its pid |
| ProcTable.StepInv | xv6-public/proc.c:73-116 | every event keeps pids, tree, forks under way, waiters and history consistent |
| ProcTable.Table.Wakeup1 | xv6-public/proc.c:466-474 | the loop makes runnable exactly the processes asleep on the channel |
| ProcTable.Table.AllocProc | xv6-public/proc.c:78-91 | the locked part of allocproc is the event Alloc; the slot is the first free one |
| ProcTable.Table.PassChildren | xv6-public/proc.c:258-266 | the loop gives exactly the children to init and wakes init if one of them is a zombie |
| ProcTable.Table.Exit | xv6-public/proc.c:255-271 | the locked part of exit is the event Exit |
| ProcTable.Table.WaitPass | xv6-public/proc.c:287-318 | one pass of wait is the event Wait, with the pid, -1 or sleep it asks for |
| ProcTable.Table.Kill | xv6-public/proc.c:488-506 | kill is the event Kill; 0 exactly when some slot has the pid |
| Pages.ReleaseValid | xv6-public/kalloc.c:59-80 | freeing a page that belongs to no address space keeps the linked list, the partition of pages and every mapping |
| Pages.AddTableValid | xv6-public/vm.c:45-53 | a cleared page entered as a table keeps the invariant and changes no mapping of any address space |
| Pages.MapUserValid | xv6-public/vm.c:68-72 | entering a page keeps the invariant and changes exactly one mapping |
| Pages.DismantleValid | xv6-public/vm.c:283-299 | taking down a directory with its tables and user pages keeps the list, the partition of pages and every other address space |
| Vm.Memory.constructor | xv6-public/kalloc.c:31-53 | after freerange every page is free, once |
| Vm.Memory.Kalloc | xv6-public/kalloc.c:82-95 | takes the head of the list; none exactly when it is empty |
| Vm.Memory.Kfree | xv6-public/kalloc.c:59-80 | puts the page in front of the list; no mapping changes |
| Vm.Memory.WalkPgdir | xv6-public/vm.c:35-55 | no mapping changes; a missing table is made only on request, and its absence without memory leaves everything as it was |
| Vm.Memory.MapUserPage | xv6-public/vm.c:60-80 | mappages for one page: exactly this page is mapped to the page that was held, or nothing changes for want of a table |
| Vm.Memory.MapKernelPages | xv6-public/vm.c:60-80 | mappages for a range maps page v to frame pa+(v-first) for exactly the pages of the range; it fails if and only if there are fewer free pages than missing tables |
| Vm.Memory.SetupKvm | xv6-public/vm.c:118-136 | a new directory with the kernel mappings and an empty user half if and only if 65 pages are free; else, at whichever allocation memory ran out, the same pages in use as before with the same contents; no other address space is touched |
| Vm.KernelLayout | xv6-public/vm.c:105-115 | the four kernel ranges map physical memory at KERNBASE, read-only where the text is, and device space at its own address, and nothing else |
| Vm.KernelApart | xv6-public/vm.c:69-70 | the ranges do not overlap, so the "remap" panic is out of reach |
| Vm.Memory.AllocUvm | xv6-public/vm.c:221-250 | success adds exactly the zeroed pages of the range and comes if and only if enough pages are free for them and their missing tables; failure, at any allocation, leaves every mapping and every page in use as it was but for new tables; no other address space is touched |
| Vm.FailedAllocKeeps | xv6-public/vm.c:234-248 | a failed allocuvm keeps every mapping of the process and the contents of every mapped page |
| Vm.Memory.DeallocUvm | xv6-public/vm.c:255-280 | unmaps and frees exactly the mapped pages of the range; no other address space is touched |
| Vm.SkipStep | xv6-public/vm.c:265-268 | jumping over a missing table is the same as walking it page by page |
| Vm.DeallocKeeps | xv6-public/vm.c:255-280 | pages outside the range keep mapping and contents |
| Vm.Memory.FreeVm | xv6-public/vm.c:283-299 | gives back exactly the directory, its tables and its user pages; every other page keeps use and contents |
| Vm.Memory.CopyUvm | xv6-public/vm.c:315-345 | a new address space with equal flags and contents on pages not in use before, the original and all others untouched, if and only if there are free pages for the kernel half, the copies and their tables; else the same pages are in use as before |
| Vm.NoSharing | xv6-public/vm.c:315-345 | two user mappings that lead to one page are the same mapping |
| Vm.OthersKept | xv6-public/vm.c:221-345 | what AllocUvm, DeallocUvm, FreeVm, SetupKvm and CopyUvm ensure of every other address space (Others) keeps each of its mappings and the contents of each of its pages |
| Vm.FailedCopyKeeps | xv6-public/vm.c:342-344 | a failed setupkvm or copyuvm keeps every mapping of every address space and the contents of every mapped page |
| Vm.PagesConserved | xv6-public/kalloc.c:59-95 | free pages and pages in use add up to all pages |
| Links.LinkCounts | xv6-public/sysfile.c:118-243 | after every run of link, unlink, create, open and close with linked parents: every link count is the number of entries other than "." that name the inode in linked directories, and a named inode is in use |
| Links.NamesUnique | xv6-public/fs.c:565-592 | after every run no directory has two entries of one name |
| Links.FreedWhenUnused | xv6-public/fs.c:339-360 | after every run an inode is free if and only if no entry names it and no reference is held |
| Links.FreedOnlyWhenUnused | xv6-public/fs.c:339-360 | a call that frees an inode leaves it without link, reference and name |
| Links.UnlinkStep | xv6-public/sysfile.c:184-243 | sys_unlink on a linked directory never reaches its nlink panic and keeps the invariant |
| Links.EmptyDirOnce | xv6-public/sysfile.c:168-180 | a directory that isdirempty accepts is named exactly once, by the parent that its ".." names |
| Links.LinkStep | xv6-public/sysfile.c:118-166 | sys_link keeps the invariant on every path, also when it takes the count back |
| Links.CreateStep | xv6-public/sysfile.c:276-328 | create keeps the invariant on every path |
| Links.CreateCountsIffLinked | xv6-public/sysfile.c:276-328 | create in a directory keeps every link count right if and only if the directory is still linked |
| Links.LinkCountsIffLinked | xv6-public/sysfile.c:143-153 | a new link keeps every link count right if and only if its directory is still linked |
| Links.RemovedWorkingDirectory | xv6-public/sysfile.c:184-243 | an unlinked directory with a reference is reachable: mkdir, then rmdir of a directory in use |
| Links.Inodes.DirLookup | xv6-public/fs.c:538-561 | the loop finds the first entry of the name, or none if there is none |
| Links.Inodes.DirLink | xv6-public/fs.c:565-592 | refuses exactly a name that is there, else writes the first empty slot or one more at the end |
| Links.Inodes.IsDirEmpty | xv6-public/sysfile.c:168-180 | true exactly when all slots from the third on are empty |
| Links.Inodes.Ialloc | xv6-public/fs.c:198-218 | the first free inode from 1 on |
| Links.Inodes.SysLink | xv6-public/sysfile.c:118-166 | sys_link after path resolution is the function Link |
| Links.Inodes.SysUnlink | xv6-public/sysfile.c:184-243 | sys_unlink after path resolution is the function Unlink |
| Links.Inodes.CreateNode | xv6-public/sysfile.c:276-328 | create after path resolution is the function Create |
| Shell.ParsePrinted | xv6-public/sh.c:342-461 | every command tree with writable words and at most nine of them per command, printed and parsed, is found again: pipes and lists to the right, redirections outermost last, all else in parentheses |
| Shell.NormalForm | xv6-public/sh.c:342-461 | whatever text parses, its printed command parses to the same tree |
| Shell.ParsedWords | xv6-public/sh.c:280-323 | every argument and file of a parse is a whole maximal word of the text, and no command has more than nine arguments |
| Shell.WordsSurvive | xv6-public/sh.c:464-508 | after nulterminate's writes every argument and file name is, as a C string, the token it was |
| Shell.NulTerminate | xv6-public/sh.c:464-508 | the recursive walk writes NUL at exactly the ends of the command's words |
| Shell.RedirsHere | xv6-public/sh.c:389-411 | printed redirections are read as they were printed, first innermost |
| Shell.ArgsHere | xv6-public/sh.c:443-457 | printed words and the redirections after them are read as they were printed |
| Shell.LineHere | xv6-public/sh.c:359-373 | a printed line is read back up to its end or closing parenthesis |
| Shell.Parser.Take | xv6-public/sh.c:280-323 | gettoken's loops compute the token, its ends and the new cursor |
| Shell.Parser.Looks | xv6-public/sh.c:325-334 | peek's loop moves the cursor to the next non-space and tells whether it is in the set |
| Shell.Parser.Redirs | xv6-public/sh.c:389-411 | parseredirs' loop computes ParseRedirs |
| Shell.Parser.ExecArgs | xv6-public/sh.c:440-460 | parseexec's loop computes ParseArgs |
| Shell.Parser.Line | xv6-public/sh.c:359-373 | parseline, with its loop over "&", computes ParseLine |
| Shell.Parser.Command | xv6-public/sh.c:342-357 | parsecmd terminates on every text with the command or the message of ParseCmd |
| Grep.MatchIff | xv6-public/grep.c:72-82 | match succeeds if and only if some part of the text, anchored as "^" and a final "$" require, splits into pieces for the literals, dots and stars of the pattern, for all patterns and texts |
| Grep.MatchHereIff | xv6-public/grep.c:84-96 | matchhere succeeds if and only if some prefix of the text does so, the whole text where the pattern ends in "$" |
| Grep.Search | xv6-public/grep.c:72-82 | the loop of match decides that some part of the text is in the language |
| Grep.SearchStar | xv6-public/grep.c:98-106 | the loop of matchstar computes MatchStar |
| Pipe.Counters | xv6-public/pipe.c:84-95 | the full and empty tests on wrapped 32-bit counters are exact, and the ring position survives the wrap |
| Pipe.Ring.Write | xv6-public/pipe.c:78-98 | stores the next bytes of the caller in order until done, full or refused; sleeps only on a full pipe with a reader |
| Pipe.Ring.Read | xv6-public/pipe.c:100-121 | takes the oldest bytes, as many as asked for and there; sleeps only on an empty pipe with a writer |
| Pipe.RestInRing | xv6-public/pipe.c:110-116 | reading the array between the counters, position by position modulo PIPESIZE, finds the bytes stored and not yet taken |
| Pipe.Drive | xv6-public/pipe.c:23-121 | for every sequence of write, read and close calls on a new pipe: the bytes fetched followed by the bytes left in the ring are exactly the bytes stored, in order, and the memory is freed once, by the close that shuts the second end |
| Console.Near | xv6-public/console.c:205-219 | the comparisons of wrapped r, w and e are those of the true indices |
| Console.Input.Interrupt | xv6-public/console.c:191-231 | consoleintr does to the ring what the pure line editor does to its line, for every key sequence |
| Console.Input.KillLine | xv6-public/console.c:202-208 | control-U erases the whole line and never crosses w |
| Console.Input.Type | xv6-public/console.c:198-229 | one key: erase, kill, commit by newline, control-D or a full buffer, or a dropped key, as the line editor says |
| Console.Input.Read | xv6-public/console.c:235-271 | a stretch of consoleread delivers what Deliver says of the characters committed and unread; it returns, sleeps or, if killed where it would sleep, gives -1 |
| Console.DeliverIs | xv6-public/console.c:250-264 | a call hands out exactly what it reads but for a control-D, nothing after a newline, and takes a control-D away only when it returns nothing |
| Console.AlwaysSane | xv6-public/console.c:182-188 | for every order of keys and reads r, w and e stay in order within one ring and no newline lies between w and e |
| Console.ReadersGetCommitted | xv6-public/console.c:191-271 | for every order of keys and reads the readers get exactly what the line editor committed, up to where they have read |
| UserTable.TableRoundTrip | xv6-public/usermanage.c:28-40 | decoding what write_usertable writes gives the table back |
| UserTable.EveryRun | xv6-public/usermanage.c:79-225 | after every run of add, delete and restart: uids in use are distinct, nonzero and below next_uid, names are distinct, root is there, no uid was given out twice, and /passwd decodes to the table in memory |
| UserTable.AddKeepsIff | xv6-public/usermanage.c:163-197 | a user is added soundly if and only if next_uid can still be counted up |
| UserTable.DeleteInv | xv6-public/usermanage.c:199-225 | delete_user keeps the invariant and never removes root |
| UserTable.RestartKeeps | xv6-public/usermanage.c:79-114 | reading /passwd at boot never panics and changes nothing |
| UserTable.SameField | xv6-public/usermanage.c:126-133 | comparing a stored name with a string finds exactly equal names |
| UserTable.Users.Export | xv6-public/usermanage.c:28-48 | export writes exactly the encoding of the table |
| UserTable.Users.FindSlot | xv6-public/usermanage.c:172-183 | add_user's loop finds whether the name is taken and the last empty slot |
| UserTable.Users.AddUser | xv6-public/usermanage.c:163-197 | add_user is the function Add, /passwd is up to date, and the invariant survives if and only if nobody was added or next_uid did not wrap |
| UserTable.Users.DeleteUser | xv6-public/usermanage.c:199-225 | delete_user is the function Delete, and /passwd is up to date |
| UserTable.Users.Restart | xv6-public/usermanage.c:79-114 | a restart brings back the same table |

## Left out

- Heap.Allocator.Malloc: where no free block is large enough and sbrk's argument is not positive, only a refusal is modelled; the kernel may instead shrink the process and report success. SbrkGrows says for exactly which requests that can be.
- Fs.FileSystem.Writei: after the "balloc: out of blocks" panic bitmap and references still agree and the log bound holds; the half-written contents in memory are not described, and FileCrash shows that they do not survive.
- Log.Log.Update: changing a buffer and calling log_write is one step; no other process is taken to be between the two, so a buffer that is not pinned shows what the disk or the log has.
- Log.Log.EndOp: log blocks are taken to be read by log.c alone, as in the source.
- FileCrash.SafeWrite: filewrite runs alone between crashes; with other operations in the same transactions CrashAtomicity holds, but no file-system stage is named.
- Boot.FirstUpdate: one operation on one block, with two buffers idle at power-on; longer histories are BootTxnAtomicity.
- Fs.FileSystem.Bmap: the "bmap: out of range" panic for positions from MAXFILE on is a precondition.
- Vm.Memory.DeallocUvm: an entry is cleared before its page is freed, the source does it the other way round; no step sees the difference.
- Vm.Memory.CopyUvm: the two panics for a hole below the process size are a precondition.
- ProcTable.Table.Exit: closing files and dropping the working directory before the locked part is not modelled.
- Links.CreateStep: the inode lock kept on the path where the file found is not writable is not modelled; its reference is.
- Links.Inodes.DirLink: a directory that has reached MAXFILE, where the source panics, is not modelled.
- UserTable.EveryRun: the user-table lock is taken as making each call atomic; getuid releases a lock it has not taken on its error path, which is not modelled.
- Path resolution (skipelem, namex), permissions and sys_chmod: calls are modelled from the inodes that resolution found; permissions are parameters.
- The inode cache slots of iget and the valid flag: only the number of references is modelled.
- The type, device, link count, permission and owner words of an inode on disk, and the byte layout of directory entries: size and addresses are stored in the inode blocks, the rest is records.
- File reference counts (filealloc, filedup, fileclose): easy beside inode references.
- scheduler and swtch: dispatching is one event; fairness is not stated.
- spinlock.c, hardware drivers, boot and assembly code, exec and system call arguments.
- growproc: it takes a process size of 0 after shrinking for a failure; allocuvm and deallocuvm are modelled instead.
- copyout, loaduvm, inituvm and clearpteu: single-page variations on the walks that are modelled.
- grep's buffered reading of lines, and running commands after the shell has parsed them.
- Time, interrupts and the order in which processes run are left open: the results hold for every order.
