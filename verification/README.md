# Proofs about the xv6 kernel and its zero-copy ring buffer

This project models the parts of the xv6 RISC-V kernel and of the added "magic" ring buffer that carry state across calls:
the write-ahead log with its buffer cache, the inode layer, Sv39 page tables with the page allocator, pipes over sleep and wakeup,
the user heap, and the ring buffer in the kernel and in user space. Code that updates state in place is written as classes and
methods with loops, each proved against a specification; protocols whose point is interleaving (log and cache, pipe, ring counters)
are state machines whose steps are single atomic actions, with an invariant proved for every run.

`dafny verify dfyconfig.toml` checks the whole project.

## Files

| file | what it holds |
|---|---|
| Params.dfy, Option.dfy | the constants several models share; the option type |
| LogDisk.dfy | commit and recovery as sequences of disk writes; crash atomicity; the class that performs them |
| LogSystem.dfy | many threads on cache and log: begin_op, end_op, bget, log_write, commit, one step at a time |
| LogCommit.dfy | the last end_op and its commit as one run; a block changed, logged and durable |
| Bcache.dfy | the buffer cache's doubly linked ring, reference counts and LRU choice |
| FsDisk.dfy, FsInode.dfy | bitmap bits and indirect words; the ownership invariant of blocks |
| FsJournal.dfy | the write-ahead rule: what a call changes, what it logs, and the one block that may be changed and not logged |
| FsContent.dfy, FsChunk.dfy, FsTrunc.dfy | files as bytes, one writei call, filewrite's transactions, itrunc |
| FsTight.dfy, FsBudget.dfy | the transaction bounds of filewrite and itrunc, with the disks that reach and exceed them |
| FsCrash.dfy | a crash anywhere in filewrite, down to the bytes of the files after recovery |
| Fs.dfy, FsRun.dfy | balloc, bfree, bmap, readi, writei, itrunc, filewrite; sequences of calls against plain byte sequences |
| PageTree.dfy, Vm.dfy | Sv39 trees as flat maps; kalloc, kfree, walk, mappages, uvmunmap, uvmalloc, uvmcopy, uvmfree |
| Sv39.dfy | the flat map against the three loads of a translation |
| VmRun.dfy, VmLife.dfy | sequences of mappages and uvmunmap, and what walkaddr then sees; an address space from uvmcreate to uvmfree |
| Umalloc.dfy | malloc, free and morecore on a circular free list |
| Pipe.dfy, PipeSched.dfy, PipeLink.dfy | the pipe's buffer with wrapping counters; readers, writers and closers over sleep and wakeup; the queue of the second in the buffer of the first |
| PipeCalls.dfy, PipeClose.dfy | whole read and write calls and the bytes they carry; whole close calls and what they leave behind |
| RingProto.dfy, RingJam.dfy, RingStream.dfy | the ring's two counters under all interleavings; what happens when they wrap; the loops of the rb program |
| RingWhole.dfy | a run of the rb program from start to end |
| RingPages.dfy, RingRegistry.dfy | where rings are mapped and what they show; the table of named rings |
| RingCalls.dfy, RingKernel.dfy | the system call as a relation between states, and exactly which calls keep the table; the code that performs it |
| RingRuns.dfy, RingLink.dfy | runs of the system call into its failures; the mapped pages as the stream's slots and the page table's entries |

## How to read the models

* A disk is a map from block number to block, and every `bwrite` is one atomic step. A crash may fall between any two.
* `panic` is a result, not a precondition: a status value, a boolean that is proved to be true, or a condition in an if-and-only-if.
* User memory is the list of bytes that can be read (or the number that can be stored) before `copyin` or `copyout` fails.
* Spinlocks and sleeplocks give mutual exclusion; a critical section without a blocking call inside is one step.
* Counters of 32 and 64 bits wrap explicitly (`% 0x1_0000_0000` and the 64-bit modulus); ghost counters beside them do not.

## Where the code and the obvious claim differ

* `log_write` panics at `log.size - 1` blocks while `begin_op` reserves up to LOGSIZE, and it looks at the length before it looks
  for the block. `LogSystem.NoPanic` gives the exact condition for every call within its budget. `LogSystem.PanicReached` builds a
  run into the panic with a new block for every log of at most LOGSIZE blocks, the size mkfs writes, and `LogSystem.AbsorbPanics`
  one with a block that is logged already for every larger log, given the buffers and disk blocks the runs use.
* `MAX_RINGBUF_BYTES` has no parentheses, so the read offset is `(read % 16) * 4096`. `RingProto.ReadAddress` says that in every
  reachable state it is right exactly at multiples of 65536, `RingProto.ShortRead` reaches the positions 1 to 65535, and
  `RingStream.EndToEnd` says that the rb program only ever reads at the right ones (and `RingWhole.Transfer` that it can finish).
* `ringbuf_finish_read` also compares the byte count with the whole write counter; `RingProto.StoreInv` says exactly when it stores.
  `RingJam.JamReached` is a run to the wrap of that counter at which a whole window is published, and `RingJam.JamForever` says
  that from there no call of either side ever moves a counter again.
* Where `find_contiguous_pages` has met a mapped page, `create_ringbuf` leaves no guard page (`RingPages.BaseTop`).
* `append_ringbuf` skips the guard page twice. `RingPages.AppendInside` says when its pages lie in the run that was checked,
  `RingKernel.Kernel.Append` when the mapping panics, and `RingRuns.ReopenPanics` is a run from boot into that panic.
* `create_ringbuf` stores at the number of live slots. `RingRuns.CreateOverwrites` is a run from boot in which a live ring and its
  pages are lost; `RingCalls.CreatedKeeps` says that a create loses pages exactly when that slot is live, and
  `RingCalls.StepPrefix` which closes lead there.
* `RingCalls.StepKeeps` says of every ringbuf call exactly whether it leaves the table in order with every page free or held:
  among those that do not are a create or append whose copyout fails, and a close with an address the process did not get.
* When `kalloc` fails, `create_ringbuf` calls `uvmdealloc(pagetable, va, PGSIZE)`, which starts on the process's own memory and
  panics (`RingKernel.Kernel.MapNew`, `Vm.DeallocBeyond`).
* `unmap_ringbuf` lowers the count before it looks at the address; `RingCalls.CloseHarm` says that a close keeps the table in order
  if and only if no ring has the name or the process has that window of it open.
* The comment on `uvmdealloc` allows an old size above the actual one; `Vm.DeallocBeyond` says that it then panics.
* `kfree` of a free page closes the free list into a cycle (`Vm.Machine.Kfree`).
* With MAX_RINGBUFS live rings the system call refuses every request, closing included. `RingRuns.FillTable` gets there from boot,
  and `RingCalls.FullForever` says that no call changes anything ever after.
* A killed writer leaves `pipewrite` without a wakeup. `PipeSched.KilledWriter` says exactly when that breaks the wakeup invariant,
  and `PipeSched.KillLosesWakeup` is a run into such a state.
* `writei` whose source ends inside a block has stored bytes there that it does not count. Every other block it changed is logged,
  and that one is logged if and only if it was missing before the call, because `balloc` logs it (`FsJournal.Logs` in the contract
  of `Fs.FileSystem.Writei`); `FsRun.WriteFault` is a call that leaves it unlogged. `FsCrash.SurvivorFiles` says that the uncounted
  bytes never survive a crash, and `LogSystem.DirtyUnlock` that such a release breaks the agreement of cache and log exactly when
  the bytes differ.
* `itrunc` keeps to MAXOPBLOCKS exactly when the file lies under fewer than that many bitmap blocks (`FsBudget.TruncBudget`).
  `FsBudget.LayoutBudget` says which disk layouts guarantee that, and `FsBudget.WideFile` gives a file on each of the others.
* `sbrk` takes an int, so `morecore` asks for the right amount only below 2^27 units (`Umalloc.SbrkExact`).
* The rb program copies every window from the front of `write_buf`, so position x of the stream is `write_buf[x % 65536]`
  (`RingStream.ReadsFront`).

## Model

| member | source | states |
|---|---|---|
| `LogDisk.CommitAtomic` | kernel/log.c:193-203 | after any number of commit's disk writes and any sequence of crashes during recovery, all home blocks are old before the first header write and all are at their cached values from it on; the header ends empty |
| `LogDisk.TraceAtomic` | kernel/log.c:178-203 | the same for every image in the trace the Commit method really leaves on disk |
| `LogDisk.CrashInRecovery` | kernel/log.c:116-123 | stopping recovery after any write leaves an image that recovers to the same home blocks |
| `LogDisk.CrashesInRecovery` | kernel/log.c:116-123 | the same for any number of crashes in a row |
| `LogDisk.UncommittedHome` | kernel/log.c:178-191 | before the header write recovery changes no home block |
| `LogDisk.LoggedHome` | kernel/log.c:102-114 | right after the header write recovery produces exactly the cached values |
| `LogDisk.LogKept` | kernel/log.c:68-83 | installing blocks never disturbs the log copies that are still to be installed |
| `LogDisk.InstallHome` | kernel/log.c:73-82 | a block listed in the header ends with the contents of its log block |
| `LogDisk.InstallOther` | kernel/log.c:73-82 | a block that is not listed is untouched by install_trans |
| `LogDisk.AppendAt` | kernel/log.c:183-190 | write_log fills exactly the log blocks, in header order, with the cached data |
| `LogDisk.CommitTraceAt` | kernel/log.c:193-203 | image k of a commit is the disk after k of its writes |
| `LogDisk.RecoverTraceAt` | kernel/log.c:116-123 | image k of a recovery is the disk after k of its writes |
| `LogDisk.Log.ReadHead` | kernel/log.c:86-97 | the in-memory header becomes what the disk header holds |
| `LogDisk.Log.WriteHead` | kernel/log.c:102-114 | one disk write that stores count and block numbers and keeps the rest of the header block |
| `LogDisk.Log.InstallTrans` | kernel/log.c:68-83 | performs the installs in order, one write for each block, leaving the trace of recovery images |
| `LogDisk.Log.WriteLog` | kernel/log.c:178-191 | performs the log writes in order, leaving their trace |
| `LogDisk.Log.RecoverFromLog` | kernel/log.c:116-123 | from every image a crash can leave: the recovered disk, an empty header, and the recovery trace |
| `LogDisk.Log.Commit` | kernel/log.c:193-203 | the committed disk and the trace TraceAtomic speaks about; nothing at all for an empty header |
| `LogSystem.RunInv` | kernel/log.c:126-235 | every interleaving of begin_op, end_op, bget, reads, changes, log_write, brelse and the commit steps keeps the whole invariant |
| `LogSystem.BootInv` | kernel/log.c:55-65 | after boot the invariant holds, with an empty log and whatever recovery left in the cache |
| `LogSystem.Coherent` | kernel/bio.c:91-103 | a valid unlocked buffer equals the disk block, unless its block waits in the log header, and then it is the last logged value |
| `LogSystem.PinnedStays` | kernel/bio.c:58-89 | a block in the log header is cached, valid and referenced in every reachable state, so bget never recycles it |
| `LogSystem.OneBuffer` | kernel/bio.c:58-89 | no block is cached in two buffers |
| `LogSystem.WriteLogInv` | kernel/log.c:183-190 | write_log copies exactly the last logged value of each block to the log |
| `LogSystem.CrashSafe` | kernel/log.c:116-203 | in every reachable state, whatever the threads were doing, a reboot with any crashes in recovery brings back exactly the last committed image |
| `LogSystem.CrashDurable` | kernel/log.c:116-235 | a crash anywhere in any run from boot: recovery, however often it is cut short, brings back exactly what the last header write made durable, computed from the log_write calls of the run, and the booted disk when there was none |
| `LogSystem.CommitPoint` | kernel/log.c:193-203 | the image that survives a crash changes at the first header write only, and then to everything logged; what is logged changes at log_write only |
| `LogSystem.Reserved` | kernel/log.c:126-175 | no commit runs while calls are outstanding, logged blocks plus unspent reservations stay within LOGSIZE, and the header has no duplicates |
| `LogSystem.NoPanic` | kernel/log.c:214-235 | a call within MAXOPBLOCKS panics if and only if the header holds log.size - 1 blocks, or LOGSIZE blocks and this one is among them; the latter only when every outstanding call has used up its budget |
| `LogSystem.PanicReached` | kernel/log.c:220-221 | for every log of at most LOGSIZE blocks, with enough buffers and disk, a run of calls within their budgets reaches a log_write of a new block that panics |
| `LogSystem.AbsorbPanics` | kernel/log.c:220-229 | for every larger log the calls reach a log_write of a block that is logged already that panics |
| `LogSystem.BeginInv` | kernel/log.c:126-142 | begin_op's admission test keeps the reservations within the log |
| `LogSystem.EndInv` | kernel/log.c:146-164 | end_op keeps the invariant: it gives its reservation back, and the last one takes the disk as it is for the base of its commit |
| `LogSystem.GetInv` | kernel/bio.c:58-89 | taking a cached or recycled buffer keeps coherence and pins |
| `LogSystem.FillInv` | kernel/bio.c:92-103 | a buffer filled from disk is up to date, because a logged block is never filled again |
| `LogSystem.ModifyInv` | kernel/log.c:205-213 | changing data under the buffer lock inside a call keeps the invariant |
| `LogSystem.LogWriteInv` | kernel/log.c:214-235 | log_write with absorption: a first write pins the buffer, a repeated one changes no count |
| `LogSystem.UnlockInv` | kernel/bio.c:116-122 | the first half of brelse: the lock of a logged or unchanged buffer is released |
| `LogSystem.DirtyUnlock` | kernel/fs.c:521-524 | releasing a buffer that was changed and not logged keeps the invariant if and only if its data is what was last logged for the block |
| `LogSystem.ModifyUnlogged` | kernel/fs.c:521-524 | so from every state in which a call may change a buffer, changing it and releasing it unlogged keeps the invariant only for data that changes nothing |
| `LogSystem.DropInv` | kernel/bio.c:124-136 | the second half: the reference goes while another thread may hold the buffer |
| `LogSystem.CommitHeadInv` | kernel/log.c:196-199 | the header write that commits |
| `LogSystem.InstallInv` | kernel/log.c:73-82 | one install: disk, cache and pin count move together |
| `LogSystem.ClearHeadInv` | kernel/log.c:200-202 | the header write that empties the log |
| `LogCommit.EndStarts` | kernel/log.c:146-164 | exactly that call is no longer outstanding and nothing else moves; the last one makes its thread the committer, at once finished with an empty header and else at the first block; with other calls outstanding no commit starts |
| `LogCommit.CommitFinishes` | kernel/log.c:165-203 | from any point of a commit the committer's own steps reach its end, without waiting for anyone: the header is empty on disk and in memory, and every home block on disk is what was last logged |
| `LogCommit.EndDurable` | kernel/log.c:146-203 | the last end_op: its thread's steps lead to a state from which every crash, and every crash in recovery, comes back with everything that was logged |
| `LogCommit.Bread` | kernel/bio.c:91-103 | bread by the committer is a run that ends with the block's buffer valid and locked by it, and no other buffer changed |
| `LogCommit.Brelse` | kernel/bio.c:116-136 | brelse is a run that gives back exactly that lock and that reference |
| `LogCommit.WriteOne` | kernel/log.c:183-190 | one turn of write_log, with its bread and brelse calls, can be taken and is the next log block |
| `LogCommit.InstallOne` | kernel/log.c:73-82 | one turn of install_trans likewise |
| `LogCommit.Update` | kernel/log.c:205-235 | data stored into a buffer, log_write and brelse: the logged contents change in exactly that block, to exactly that data, the block is in the header once, and the buffer is released |
| `LogCommit.UpdateDurable` | kernel/log.c:126-235 | then end_op: every crash comes back with the old contents and the new data in that block |
| `Bcache.OneCycle` | kernel/bio.c:30-34 | next and prev are inverse to each other, and next from the head goes once round all NBUF buffers |
| `Bcache.Unlink` | kernel/bio.c:128-129 | the two stores take exactly one buffer out of the cycle |
| `Bcache.PushFront` | kernel/bio.c:130-133 | the four stores put it behind the head |
| `Bcache.Cache.constructor` | kernel/bio.c:36-53 | binit: one cycle through all buffers, all unreferenced with key (0,0) |
| `Bcache.Cache.FindCached` | kernel/bio.c:66-73 | finds a buffer with the key if and only if there is one |
| `Bcache.Cache.FindVictim` | kernel/bio.c:77-87 | the unreferenced buffer whose last release is oldest, or none when all are referenced |
| `Bcache.Cache.Bget` | kernel/bio.c:58-89 | a cached buffer with one more reference, else the oldest unreferenced buffer recycled, else panic; nothing else changes and each key with dev != 0 stays unique |
| `Bcache.Cache.Brelse` | kernel/bio.c:116-137 | one reference less; the last one moves the buffer to the young end and stamps it |
| `Bcache.Cache.Bpin` | kernel/bio.c:139-144 | one reference more, the ring untouched |
| `Bcache.Cache.Bunpin` | kernel/bio.c:146-151 | one reference less, the ring untouched |
| `FsDisk.BitSet` | kernel/fs.c:75-77 | setting or clearing bit k of a byte changes bit k alone |
| `FsDisk.MarkBit` | kernel/fs.c:65-105 | marking or unmarking a block changes that block's bit alone, across bytes and bitmap blocks |
| `FsDisk.WordSet` | kernel/fs.c:408-413 | storing an entry of an indirect block changes that entry alone, and reading it back gives the number stored |
| `FsDisk.EntryBytes` | mkfs/mkfs.c:55-66 | an entry is four bytes, the lowest first, with the weights 1, 256, 65536 and 16777216; the other bytes of the block stay |
| `FsDisk.BitDigit` | kernel/fs.c:75-77 | bit k of a byte is its binary digit of weight 2^k |
| `FsDisk.BitValue` | kernel/fs.c:75-77 | setting a clear bit k adds 2^k to the byte and clearing a set one takes it away |
| `FsDisk.MarkBytes` | kernel/fs.c:72-79 | marking block b writes one byte of one bitmap block: byte b % 8192 / 8 of block b / 8192 past bmapstart, by 2^(b % 8) |
| `FsInode.OnePlace` | kernel/fs.c:382-421 | no block is referenced from two places |
| `FsInode.AllocBlock` | kernel/fs.c:65-88 | a newly marked block was in no file and no reference changes |
| `FsInode.FreeBlock` | kernel/fs.c:91-105 | a referenced block's bit is set, and clearing it changes no reference |
| `FsInode.PutAddr` | kernel/fs.c:389-406 | storing a fresh block in an empty address adds exactly one reference |
| `FsInode.PutEntry` | kernel/fs.c:409-414 | storing a fresh block in an empty entry adds exactly one reference |
| `FsInode.Filled` | kernel/fs.c:382-421 | filling an empty place keeps the ownership invariant and everything that existed |
| `FsContent.MappedBytes` | kernel/fs.c:382-421 | bmap changes no byte of any file: a missing block reads as zero and the new one is zero |
| `FsContent.Poke` | kernel/fs.c:520-526 | storing into one block of a file changes those bytes of that file only and keeps the invariant |
| `FsContent.Spliced` | kernel/fs.c:505-539 | a writei that transfers all n bytes at off <= size leaves the old bytes with exactly those n spliced in, and every other file as it was |
| `FsContent.WriteRound` | kernel/fs.c:516-528 | one round of the loop extends bytes written, blocks reached and the tally of logged blocks together |
| `FsContent.RoundEnds` | kernel/fs.c:517-528 | a round that stops the loop: no block for the next byte and nothing stored, or a block that is there and a source that ends inside it; when that is the first block and was there before, nothing is logged |
| `FsContent.WriteEnd` | kernel/fs.c:530-538 | the size becomes the larger of the old size and the end of the bytes counted, and the write-ahead rule holds of the whole call |
| `FsContent.SkipLogged` | kernel/fs.c:517-528 | the block in which the source ended: logged when it was missing before the call, and else logged only if it was already; for every number of bytes counted before it |
| `FsContent.JournalRound` | kernel/fs.c:516-528 | each round logs what it changes, and of the blocks in use only those of this file from the first to the last one stored, except the block in which the source ends |
| `FsJournal.SlotJournal` | kernel/fs.c:389-406 | filling an address logs every block it changes and no block in use |
| `FsJournal.EntryJournal` | kernel/fs.c:409-415 | the same for an entry, and the indirect block is the only block in use that is logged |
| `FsJournal.PokeJournal` | kernel/fs.c:520-526 | storing bytes with log_write logs that block; without it that block is the only one changed and unlogged |
| `FsContent.FirstBlock` | kernel/fs.c:516-521 | a write that starts inside a block finds that block allocated |
| `FsContent.TallyEnd` | kernel/fs.c:505-539 | the logged blocks are at most the data blocks, a bitmap block for each new one, the indirect block and the inode block |
| `FsContent.ChunkFits` | kernel/file.c:155-161 | for any offset a chunk of filewrite logs at most MAXOPBLOCKS distinct blocks |
| `FsContent.FileChunk` | kernel/file.c:155-175 | chunk after chunk the bytes written so far are a prefix of the source at the starting offset |
| `FsChunk.OneChunk` | kernel/file.c:155-167 | a writei call of at most one chunk is one transaction within MAXOPBLOCKS |
| `FsChunk.NextChunk` | kernel/file.c:155-175 | transaction k reads and writes its own part of source and file, after transactions written in full; the loop stops at n bytes or at the first that is not |
| `FsChunk.FileNext` | kernel/file.c:155-175 | one more transaction extends the prefix written, or is refused, or stops short for lack of source or blocks |
| `FsContent.ReadBlock` | kernel/fs.c:482-494 | a piece of a mapped block is the matching piece of the file |
| `FsTight.TightAtTen` | kernel/file.c:150-167 | from a disk whose four free blocks lie under four bitmap blocks, a 3072-byte chunk over blocks 11 to 14 is written completely and logs exactly ten blocks |
| `FsTight.TightWitness` | kernel/fs.h:12-27 | there is such a disk: 24577 blocks, 2034 files and four free blocks in the right places |
| `FsTrunc.CutDirect` | kernel/fs.c:432-437 | freeing a direct block of a file never meets a clear bit and takes exactly that reference away |
| `FsTrunc.FreeEntry` | kernel/fs.c:442-445 | the same for an entry of the indirect block |
| `FsTrunc.CutIndirect` | kernel/fs.c:446-449 | freeing the indirect block leaves exactly the other files' references |
| `FsTrunc.TruncInv` | kernel/fs.c:425-453 | after a truncation the invariant holds and no byte of another file has changed |
| `FsTrunc.AllBitmaps` | kernel/fs.c:425-453 | the bitmap blocks of the direct blocks, the entries and the indirect block are those of the whole file |
| `Fs.FileSystem.Balloc` | kernel/fs.c:65-88 | the lowest free block, marked and zeroed, with both blocks logged, and the bitmap byte that holds its mark larger by the bit's weight; 0 if and only if every bit is set |
| `Fs.FileSystem.Bfree` | kernel/fs.c:91-105 | clears the bit, so that its bitmap byte is smaller by the bit's weight; panics if and only if it is clear already |
| `Fs.FileSystem.FillSlot` | kernel/fs.c:389-406 | an empty address gets a fresh zero block or nothing changes because the disk is full |
| `Fs.FileSystem.FillEntry` | kernel/fs.c:409-415 | the same for an empty entry of the indirect block, whose four bytes become the block's number, lowest byte first |
| `Fs.FileSystem.BmapIndirect` | kernel/fs.c:399-418 | bmap for the blocks above the direct ones: the number returned is the one in the four bytes of the entry |
| `Fs.FileSystem.Bmap` | kernel/fs.c:382-421 | the block of the file, unchanged if it was there, fresh and zero if not, 0 only when the disk is full; the inode's address or the four bytes of the indirect entry hold exactly that number; nothing else changes; logged blocks counted |
| `Fs.FileSystem.WriteBlock` | kernel/fs.c:517-527 | one round of writei: no block, a source that ends early and then the block changed but unlogged unless it is new, or stored and logged; nothing else changed unlogged |
| `Fs.FileSystem.WriteBlocks` | kernel/fs.c:516-528 | the loop: bytes, blocks and logged blocks so far, how it ends, and for every number of bytes counted which changed block may be unlogged |
| `Fs.FileSystem.Writei` | kernel/fs.c:505-539 | -1 exactly for an offset beyond the size or an end beyond the largest file; else the bytes counted and stored, the size, the blocks logged and their bound; short exactly between blocks, and exactly how many bytes are stored beyond those counted; every changed block is logged but the one in which the source ended, and that one exactly when it was missing before or logged already |
| `Fs.FileSystem.Readi` | kernel/fs.c:471-496 | exactly the slice of the file clipped to its size, across direct, indirect and unaligned boundaries; -1 when the destination ends early; the file system unchanged |
| `Fs.FileSystem.CutDirects` | kernel/fs.c:432-437 | the loop over the direct blocks, without panic, logging exactly their bitmap blocks |
| `Fs.FileSystem.FreeEntries` | kernel/fs.c:442-445 | the loop over the indirect block's entries, without panic, logging exactly their bitmap blocks |
| `Fs.FileSystem.Itrunc` | kernel/fs.c:425-453 | never reaches the freeing-free-block panic; the file ends empty, its blocks and no others are freed, other files keep every byte; logged are exactly the bitmap blocks of the file and its inode's block |
| `FsRun.Perform` | kernel/fs.c:382-539 | any sequence of bmap, writei and itrunc: each call does to the files, taken as byte sequences, what its result says and nothing else; the invariant holds throughout and no bfree panics |
| `FsRun.Step` | kernel/fs.c:382-539 | one call: how it can end and the files it leaves |
| `FsRun.WriteContent` | kernel/fs.c:505-539 | a writei of any outcome splices the stored bytes into the file, whose size follows the counted ones; other files keep theirs |
| `FsRun.LastWriter` | kernel/fs.c:425-539 | every byte below a file's size is what the last call that stored it gave, through any truncations and short writes |
| `FsRun.ReadBack` | kernel/fs.c:471-539 | any sequence of calls, then readi: every byte read is the last one written there |
| `FsRun.WriteFault` | kernel/fs.c:521-524 | a source that ends inside the first block: 0 is returned, the file's first bytes are the source's, and only the inode's block is logged |
| `FsBudget.TruncBudget` | kernel/fs.c:425-453 | itrunc logs at most MAXOPBLOCKS blocks if and only if the file lies under fewer than MAXOPBLOCKS bitmap blocks |
| `FsBudget.LayoutBudget` | kernel/fs.h:47-51 | on all well-formed disks of a layout itrunc of every file keeps to MAXOPBLOCKS if and only if the data blocks lie under fewer than MAXOPBLOCKS bitmap blocks |
| `FsBudget.WideFile` | kernel/fs.c:425-453 | for every other layout a well-formed disk with a file of ten blocks under ten bitmap blocks |
| `FsBudget.FewBitmaps` | kernel/fs.c:425-453 | a file lies under at most as many bitmap blocks as the data blocks of the disk |
| `FsBudget.MetaBits` | mkfs/mkfs.c:235-248 | marking the first n blocks of an empty disk one by one sets exactly their bits, across bitmap blocks |
| `Fs.OpenFile.Filewrite` | kernel/file.c:134-182 | n when all bytes are written and else -1; offset, size and bytes of the file after any outcome; the states after each transaction, each a writei of its chunk within MAXOPBLOCKS; where the loop stops; the possible reasons of failure |
| `Fs.OpenFile.Transact` | kernel/file.c:162-167 | one round of the loop is one transaction and moves the offset by the bytes counted |
| `FsCrash.FilewriteCrash` | kernel/file.c:155-175 | a crash anywhere in filewrite, in any transaction, before its commit or after any of the commit's writes, and any crashes in recovery: the disk holds a well-formed file system with the files as before the call and a prefix of the source in place, the chunks committed before, or also the bytes the last one counted, and no others |
| `FsCrash.ChunkCrash` | kernel/log.c:193-203 | one transaction: after recovery the files are the old ones until the header write, and from it on those with exactly the counted bytes of the chunk spliced in |
| `FsCrash.SurvivorFiles` | kernel/fs.c:516-538 | what a committed chunk leaves on disk is well formed and holds exactly the counted bytes; bytes stored and not counted are never among them |
| `FsCrash.NewHolds` | kernel/log.c:68-83 | installing the logged blocks leaves a disk that holds the state after the chunk, but for the block in which the source ended |
| `FsCrash.IupdateAt` | kernel/fs.c:226-241 | iupdate stores size and addresses of its inode and leaves the other inodes of the block |
| `FsCrash.CommitAll` | kernel/file.c:155-175 | the transactions of every filewrite can be committed one after the other: each fits the log and stays out of it |
| `FsCrash.HoldsOne` | kernel/fs.h:31-39 | a disk determines the files it holds, so what recovery leaves is what a reader then sees |
| `PageTree.PteRoundTrip` | kernel/riscv.h:348-352 | address and flags packed into a page-table entry come back |
| `Sv39.HardwareWalk` | kernel/riscv.h:354-357 | for every well-formed tree and every address the flat map holds exactly the leaf word that three loads find, with the indices from bits 30, 21 and 12 of the address and the next table at the entry's page |
| `PageTree.PathTo` | kernel/vm.c:85-103 | every table page is reached on its own index path and on no other |
| `PageTree.TablesNotShared` | kernel/vm.c:85-103 | two table pages never stand on one path |
| `PageTree.SetFlat` | kernel/vm.c:157-159 | storing a leaf word changes the translation of its page alone |
| `PageTree.Grow` | kernel/vm.c:95-100 | hanging a zeroed table under an empty entry changes no translation and keeps the tree well formed |
| `PageTree.Outside` | kernel/vm.c:85-103 | a tree does not depend on pages outside it |
| `Vm.Machine.Kalloc` | kernel/kalloc.c:70-84 | the head of the free list, filled with junk; 0 exactly when the list is empty |
| `Vm.Machine.Kfree` | kernel/kalloc.c:46-65 | the page goes to the head of the list; panic exactly for an address outside the range or unaligned; a page that is free already leaves no finite list |
| `Vm.DoubleFree` | kernel/kalloc.c:58-64 | after a second free of a page the links from the head lead back to it |
| `Vm.Machine.AddTable` | kernel/vm.c:95-100 | a zeroed page becomes a table, or nothing changes because memory is out |
| `Vm.Machine.Walk` | kernel/vm.c:85-103 | the slot of the page's leaf; panic exactly beyond MAXVA; no translation changes; with alloc it fails only when fewer than two pages are free |
| `Vm.Machine.Walkaddr` | kernel/vm.c:108-127 | the physical page of a mapped user page and 0 for everything else |
| `Vm.Machine.MapPage` | kernel/vm.c:155-159 | one page mapped; panic exactly for a mapped page or one beyond MAXVA |
| `Vm.Machine.Mappages` | kernel/vm.c:143-167 | the pages from va to va+size-1 mapped in order up to the first that fails, all other translations kept; exact conditions for success, failure and panic |
| `Vm.Machine.UnmapPage` | kernel/vm.c:183-197 | one page unmapped and freed; panic exactly when it is not a mapped leaf or cannot be freed |
| `Vm.Machine.Uvmunmap` | kernel/vm.c:172-199 | the pages removed in order up to the first that fails, all other translations kept, exactly their frames on the free list |
| `VmRun.Perform` | kernel/vm.c:85-199 | any sequence of mappages and uvmunmap, with and without freeing, up to the first panic: each call's status and page count as the table before it decides, it runs out of memory only with a short enough free list, every page translates as the last call that reached it left it, and tables and free list gain exactly the freed frames |
| `VmRun.Translate` | kernel/vm.c:108-199 | then walkaddr of any address: the physical page of the last mapping that reached it when that is a user page, 0 after an unmapping |
| `VmRun.OutcomeDecided` | kernel/vm.c:143-199 | but for running out of memory the table decides status and page count, and a call that runs out stops no later |
| `VmRun.OwnedCareful` | kernel/vm.c:172-199 | when no frame is given to two pages and none is a table or free, no call of the sequence frees a page that is in use, however the calls end |
| `VmRun.LastMapped` | kernel/vm.c:143-199 | a page stays as the last call that reached it left it, however many calls follow elsewhere |
| `VmRun.ReplayAt` | kernel/vm.c:143-199 | replaying the calls on the flat map agrees with looking for the last call that covers a page |
| `Vm.MapRangeAt` | kernel/vm.c:152-163 | page k of a mapped range has the entry with physical page k and the flags, bit for bit, and other pages keep theirs |
| `Vm.Machine.Uvmcreate` | kernel/vm.c:203-212 | an empty page table, or 0 when memory is out |
| `Vm.Machine.GrowPage` | kernel/vm.c:243-253 | one page more of the process image, zero and with the flags asked for, or the image as it was with every page accounted for; no byte of a mapped page changes |
| `Vm.Machine.Uvmalloc` | kernel/vm.c:232-256 | the image grows to newsz: every new page is a zero frame of its own mapped readable, for the user and with xperm; or it fails and keeps the old image; high mappings such as the trapframe and the contents of all mapped pages untouched; it fails only when fewer than three pages for each new page are free; no page is lost |
| `Vm.Machine.Uvmdealloc` | kernel/vm.c:262-274 | any sizes: the pages from the rounded new size up are unmapped and free, the contents of the others stay; panic if and only if one of them is not a mapped data page, never from an image of the old size, which becomes one of the new size |
| `Vm.DeallocBeyond` | kernel/vm.c:258-274 | in a process image uvmdealloc panics if and only if the old size rounds to more pages than the image has |
| `Vm.Machine.Freewalk` | kernel/vm.c:278-295 | every page of a tree without leaves goes to the free list and no other page changes; no panic |
| `Vm.Machine.Uvmfree` | kernel/vm.c:299-305 | all pages of the image and of the tree are free again |
| `VmLife.Life` | kernel/vm.c:203-305 | uvmcreate, any list of resizes, then uvmfree: after each the image has exactly the size its success or failure means, free pages, tables and image pages together are as many as at the start and each is there once, an enlargement fails only with fewer than three free pages for each new one, and at the end the free pages are the ones of the start; nothing is done if and only if no page is free; after each resize every page has the flags the enlargement that made it asked for, new pages are zero and kept pages unchanged |
| `VmLife.Step` | kernel/proc.c:260-275 | one resize as growproc makes it, with the flags and the contents of every page |
| `VmLife.Touch` | kernel/vm.c:108-127 | after an enlargement walkaddr of any address in the new range is a frame full of zeros, under the entry with V, R, U and xperm |
| `VmLife.CountPages` | kernel/kalloc.c:46-84 | pages are conserved by number |
| `Vm.Machine.CopyPage` | kernel/vm.c:321-335 | one page copied into a frame of its own with the same flags, or nothing, and that only with fewer than three pages free; no panic |
| `Vm.Machine.Uvmcopy` | kernel/vm.c:313-341 | the child's pages are private copies of the parent's with the same flags, or on failure, possible only with fewer than three free pages for each page, the child maps what it mapped before and every page is accounted for; the parent's mappings and contents are unchanged either way |
| `Vm.CloneStep` | kernel/vm.c:326-334 | a frame taken, filled and mapped in the child leaves the parent's tables and frames and the earlier copies alone |
| `Vm.CloneUndo` | kernel/vm.c:338-340 | freeing the child's copies frees nothing of the parent's |
| `Vm.ImageBound` | kernel/kalloc.c:51 | a process image has at most as many pages as memory has frames, so growing never passes MAXVA |
| `Umalloc.InsSorted` | user/umalloc.c:33-42 | the list after free is ordered by address and coalesced |
| `Umalloc.InsRing` | user/umalloc.c:33-42 | free's stores leave one ring through exactly that list |
| `Umalloc.InsUnits` | user/umalloc.c:33-42 | free adds exactly the units of the block |
| `Umalloc.CutRing` | user/umalloc.c:75-82 | malloc's stores leave one ring through the list with the block cut off |
| `Umalloc.CutFreed` | user/umalloc.c:75-82 | the units before are those left and those handed out |
| `Umalloc.Heap.constructor` | user/umalloc.c:70-73 | the ring of the empty base block |
| `Umalloc.Heap.FindSlot` | user/umalloc.c:28-31 | from every starting point the search ends at the block after which the freed one belongs |
| `Umalloc.Heap.Insert` | user/umalloc.c:24-44 | the block goes in after the one found and is joined to each neighbour it touches |
| `Umalloc.Heap.Free` | user/umalloc.c:24-44 | the block is no longer live, every other live block is untouched, and free plus live units are still the units obtained |
| `Umalloc.Heap.Morecore` | user/umalloc.c:46-61 | exactly the units asked for, 4096 at least, join the free list, or nothing changes |
| `Umalloc.Heap.Take` | user/umalloc.c:75-84 | the block's end, or all of it, becomes live; the list is the old one with exactly that cut off, and freep the block before |
| `Umalloc.Heap.Malloc` | user/umalloc.c:63-90 | a live block of the rounded size that overlapped nothing, or none when no free block fits and sbrk fails; when one fits it is the end of the first that does after freep, which moves to the block before it; morecore at most once; the search ends |
| `Umalloc.SbrkExact` | user/umalloc.c:52-54 | sbrk's int argument is the wanted number of bytes exactly below 2^27 units |
| `Pipe.WrapSlot` | kernel/pipe.c:95 | the slot of a counter is the same before and after the counter wraps |
| `Pipe.WrapTests` | kernel/pipe.c:88-121 | with wrapping counters the tests for full and for empty are exact |
| `Pipe.PutHolds` | kernel/pipe.c:95 | a byte put in is queued behind the others |
| `Pipe.GetHolds` | kernel/pipe.c:123 | a byte taken out is the oldest |
| `Pipe.Ring.constructor` | kernel/pipe.c:33-36 | an empty pipe |
| `Pipe.Ring.Put` | kernel/pipe.c:83-98 | the bytes stored extend the history by a prefix of the source; it stops only when done, full, without reader or at the end of the source |
| `Pipe.Ring.Get` | kernel/pipe.c:120-126 | the bytes returned are the next of the history in order; a byte whose copyout fails is consumed |
| `PipeLink.BufferStep` | kernel/pipe.c:83-126 | every step of the scheduling model keeps the queue in the buffer at the slots of the 32-bit counters, reads from the slot of nread, and finds the pipe full or empty exactly as the wrapped counters do |
| `PipeSched.StepInv` | kernel/pipe.c:58-130 | every step of readers, writers and closers keeps the invariant |
| `PipeSched.RunInv` | kernel/proc.c:535-580 | the invariant holds in every state of every run without kills |
| `PipeSched.NoLostWakeup` | kernel/pipe.c:58-130 | in every run a sleeping reader means an empty pipe with its write end open or a lock holder that still owes it the wakeup, and a sleeping writer the same with a full pipe; both at once mean the holder is about to wake one of them |
| `PipeSched.SleepersRight` | kernel/pipe.c:83-119 | with the lock free, readers sleep only on an empty and writers only on a full pipe |
| `PipeSched.NeverBothAsleep` | kernel/pipe.c:83-127 | a sleeping reader and a sleeping writer: someone holds the lock and owes one of them a wakeup |
| `PipeSched.NotAllAsleep` | kernel/pipe.c:83-127 | readers and writers are never all asleep together |
| `PipeSched.SomeoneMoves` | kernel/proc.c:535-580 | unless every process is idle or asleep, some process can take a step |
| `PipeSched.Fifo` | kernel/pipe.c:83-126 | in every run the bytes taken are a prefix of the bytes put in, at most 512 behind, and are all delivered unless a copyout has failed |
| `PipeSched.WakeOneInv` | kernel/proc.c:566-580 | one turn of wakeup's loop, which waits for a process that is between releasing the pipe lock and sleeping |
| `PipeSched.FallInv` | kernel/proc.c:547-554 | the step from releasing the lock to SLEEPING |
| `PipeSched.ReadCheckInv` | kernel/pipe.c:113-119 | the reader's test and its decision to sleep |
| `PipeSched.ReadByteInv` | kernel/pipe.c:120-127 | one turn of the reader's copying loop |
| `PipeSched.WriteByteInv` | kernel/pipe.c:83-99 | one turn of the writer's loop keeps the invariant |
| `PipeSched.CloseEndInv` | kernel/pipe.c:58-74 | closing an end keeps the invariant, because the closer then owes the wakeup |
| `PipeSched.KilledWriter` | kernel/pipe.c:84-87 | a killed writer's return keeps the invariant if and only if the pipe is empty with its write end open or no reader sleeps |
| `PipeSched.KillLosesWakeup` | kernel/pipe.c:84-87 | a run of one reader and one writer from the start to a state in which the killed writer returns and the reader is left asleep beside a byte |
| `PipeCalls.WriteStep` | kernel/pipe.c:83-99 | every step of a write call puts in nothing or exactly the first byte that is left, and only a failed copyin or a closed read end ends it early |
| `PipeCalls.WritePuts` | kernel/pipe.c:76-104 | while a write call runs, whatever the others do: the bytes it has put in, followed by those it has left, are its buffer; it ends with something left only after a failed copyin |
| `PipeCalls.WriteReturns` | kernel/pipe.c:76-104 | a write call returns when its whole buffer is in the pipe, after a failed copyin with a prefix, or because the read end is closed |
| `PipeCalls.WriterStream` | kernel/pipe.c:76-104 | over a whole run the bytes of a process are the buffers of its write calls one after the other, up to what its running call has left |
| `PipeCalls.Transfer` | kernel/pipe.c:76-130 | with one writer, every byte of its write calls has been taken, is in the pipe or is still to be written, in that order, in every state of every run |
| `PipeCalls.ReadTakes` | kernel/pipe.c:106-130 | while a read call runs: the bytes it has taken are next to each other in the stream, at most n, and which of them reached the user |
| `PipeCalls.ReadReturns` | kernel/pipe.c:106-130 | a read call returns with n bytes, or earlier only on an empty pipe or a failed copyout, and with none only when the write end is closed; all bytes it took reached the user but the one whose copyout failed |
| `PipeClose.EndsRight` | kernel/pipe.c:58-74 | in every run an end is open if and only if a descriptor refers to it or a closer has not yet marked it |
| `PipeClose.GoneFacts` | kernel/pipe.c:58-74 | with neither left the end is closed and nobody is asleep, or on the way to sleep, waiting for it |
| `PipeClose.CloseReturns` | kernel/pipe.c:58-130 | from the return of a close call on, in every run: that end is closed, nobody is asleep for it, a reader that tests goes on to copy and a writer that tests returns |
| `PipeClose.EndOfFile` | kernel/pipe.c:58-130 | a run in which a reader falls asleep on the empty pipe, the write end is closed, and the reader wakes up and returns with nothing |
| `RingProto.RunInv` | user/ringbuf.c:21-102 | under every interleaving of the loads and stores of one producer and one consumer, and any byte counts, read_done <= write_done <= read_done + 65536 |
| `RingProto.StartGrants` | user/ringbuf.c:21-80 | a start call that is not interrupted, also one that gives up an earlier window, grants exactly the free space from position w or exactly the unread bytes, and moves no counter |
| `RingProto.WriteWindow` | user/ringbuf.c:62-80 | however stale the load of read_done, no position of the granted window is unread or shares a slot with an unread one |
| `RingProto.ReadWindow` | user/ringbuf.c:21-40 | every position of the granted window is published |
| `RingProto.StoreInv` | user/ringbuf.c:42-102 | finish_write exits if and only if the count is negative or exceeds the space it sees, and else publishes exactly that count; finish_read stores if and only if the count is within what it sees and within the wrapped write counter, and returns either way |
| `RingProto.SubExact` | user/ringbuf.c:39 | the 64-bit difference of the wrapped counters is their true distance |
| `RingProto.ReadOffsetRight` | user/ringbuf.c:35-36 | the reader's address is its position modulo 65536 if and only if read_done is a multiple of 65536 |
| `RingProto.ReadAddress` | user/ringbuf.c:35-36 | in every reachable state the consumer is sent to the slot of its position if and only if that is a multiple of 65536 |
| `RingProto.UnrelatedByte` | user/ringbuf.c:35-36 | at every other position the first byte it reads does not depend on what was stored for it |
| `RingProto.ShortRead` | user/ringbuf.c:21-102 | for every k from 1 to 65535 a run after which the consumer holds a window at position k with a wrong address |
| `RingJam.JamReached` | user/ringbuf.c:42-60 | a run of whole windows up to the 64-bit wrap of the write counter: a whole window is published and the producer has no space |
| `RingJam.JamStep` | user/ringbuf.c:42-102 | in that state finish_read refuses every count but 0 and finish_write exits for every other count |
| `RingJam.JamForever` | user/ringbuf.c:42-102 | from there no run of any calls moves either counter |
| `RingStream.EndToEnd` | user/rb.c:55-95 | in every state of every run both counters are multiples of 65536, the consumer holds a prefix of what the producer stored, finish_write never exits, and at the end the consumer holds it all |
| `RingStream.RunOk` | user/rb.c:55-95 | the invariant of the two loops in every run |
| `RingStream.WindowW` | user/rb.c:57-63 | the producer's window is empty or the whole ring |
| `RingStream.WindowR` | user/rb.c:88-94 | the consumer's window is empty or the whole ring, and its address is right |
| `RingStream.CopyWOk` | user/rb.c:60 | a stored byte overwrites nothing unread |
| `RingStream.CopyROk` | user/rb.c:92 | a copied byte is the next byte of the stream |
| `RingStream.StoreWOk` | user/ringbuf.c:91-101 | publishing a whole window succeeds and makes it readable |
| `RingStream.StoreROk` | user/ringbuf.c:51-59 | releasing a whole window succeeds |
| `RingStream.ReadsFront` | user/rb.c:60-92 | byte x that the consumer has copied is write_buf[x % 65536] |
| `RingWhole.Transfer` | user/rb.c:55-95 | from every memory and every write_buf there is a run that ends with both loops done, and read_buf then holds write_buf[x % 65536] at each of the 10 MB positions |
| `RingWhole.Windows` | user/rb.c:55-95 | the run, window by window: start, copy, finish on one side and then on the other |
| `RingPages.FindContiguousPages` | kernel/ringbuf.c:12-50 | the highest run of unmapped pages above KERNBASE, with base on its top page or on the mapped page above it; failure if and only if there is no such run |
| `RingPages.BaseTop` | kernel/ringbuf.c:259-263 | the buffer's top page for create and append, in terms of the highest run: one and two pages below the top of the address space, and otherwise none and one below the mapped page the scan stopped on |
| `RingPages.UnmapBelow` | kernel/ringbuf.c:122-129 | the failure path's uvmdealloc panics if and only if a page between the process's second page and va is unmapped, and it stops at the first such page |
| `RingPages.CreateInside` | kernel/ringbuf.c:259-276 | the 33 pages create_ringbuf maps lie in the run and are unmapped |
| `RingPages.AppendInside` | kernel/ringbuf.c:341-356 | append_ringbuf's 33 pages lie in the run if and only if the scan had reset base_va; otherwise only the book page does not, and it is the page below the run |
| `RingPages.MapBuffer` | kernel/ringbuf.c:154-172 | page i from the top shows buffer page i % 16 and no other page changes; panic if and only if one of the pages is mapped |
| `RingPages.FromBottom` | kernel/ringbuf.c:115-152 | page k from the bottom shows buffer page 15 - k % 16 |
| `RingPages.Alias` | kernel/ringbuf.c:134-138 | offsets x and x + 65536 are the same byte of memory |
| `RingPages.WindowOnce` | user/ringbuf.c:76-79 | a window of at most 65536 bytes from an offset below 65536 stays in the 32 pages and meets no byte twice |
| `RingPages.BookAgrees` | user/ringbuf.c:128-129 | the user's book address is the kernel's, and closing passes the address that was handed out |
| `RingRegistry.PrefixCount` | kernel/ringbuf.c:207-217 | while live slots form a prefix, slot i is live if and only if i is below the count |
| `RingRegistry.CreateSlotFree` | kernel/ringbuf.c:297-300 | then the slot create_ringbuf stores to is free |
| `RingRuns.CreateOverwrites` | kernel/ringbuf.c:297-300 | the run create a, create b, close a, create c from boot, all successful: ring b, live before the last call, is gone and its 17 pages are neither free nor held |
| `RingRegistry.GivenUp` | kernel/ringbuf.c:207-217 | after the last close of a ring the next one is stored over a live ring if and only if the closed one was not the highest |
| `RingRuns.ReopenPanics` | kernel/ringbuf.c:307-374 | the run create a, open a in a second process, create b, close a, open a from boot: four calls succeed, then the top 34 pages are unmapped and the page below them is mapped, and the last call panics in mappages |
| `RingRuns.FillTable` | kernel/ringbuf.c:457-465 | ten creates from boot succeed and fill the table |
| `RingLink.OneSlot` | kernel/ringbuf.c:113-153 | two offsets into the 32 pages are one byte if and only if they are equal modulo 65536, the slots of the stream model |
| `RingLink.TableSteps` | kernel/vm.c:143-199 | one page mapped or unmapped in the tree is one entry of the flat table |
| `RingLink.ImageGap` | kernel/ringbuf.c:122-129 | a process image leaves an unmapped page for the failure path to panic on |
| `RingRegistry.CreateInv` | kernel/ringbuf.c:232-305 | a ring created in a free slot takes 17 free pages and keeps the invariant |
| `RingRegistry.AppendInv` | kernel/ringbuf.c:307-374 | one more user of the same pages in unmapped addresses keeps the invariant |
| `RingRegistry.CloseInv` | kernel/ringbuf.c:391-448 | closing removes one window; the 17 pages are freed if and only if it was the last, and then no page table maps them |
| `RingRegistry.OnlyWindow` | kernel/ringbuf.c:391-435 | no page of a process is in two open windows, so closing one leaves the others |
| `RingRegistry.SharedView` | kernel/ringbuf.c:100-175 | in the creating and in every appending process offsets x and x + 65536 are one byte, windows meet no byte twice, and all users see the same buffer and book |
| `RingKernel.Kernel.constructor` | kernel/ringbuf.h:13-14 | no ring, all given pages free |
| `RingKernel.Kernel.Count` | kernel/ringbuf.c:207-217 | the number of live slots |
| `RingKernel.Kernel.Find` | kernel/ringbuf.c:481-488 | the first slot with the name, or the end of the table |
| `RingKernel.Kernel.MapNew` | kernel/ringbuf.c:113-153 | 16 different free pages mapped twice and one more as book, and no page else taken or remapped; a panic if and only if fewer than 17 pages are free |
| `RingKernel.Kernel.Create` | kernel/ringbuf.c:232-305 | -1 and nothing done if and only if there is no run of 34 pages, a panic if and only if there is one and fewer than 17 pages are free; else the ring below the highest run, at the index of the live count, and nothing else changed; when the copyout fails the pages are mapped and taken and no slot is stored |
| `RingKernel.Kernel.Append` | kernel/ringbuf.c:307-374 | one more user of the ring below the highest run and nothing else changed; -1 and nothing done if and only if there is no run; a panic if and only if the top 34 pages are unmapped and the page below them is mapped; when the copyout fails the window is mapped and the count stays |
| `RingKernel.Unmap` | kernel/ringbuf.c:428-435 | exactly the 32 buffer pages and the book page are unmapped; a panic if and only if one of them is not mapped |
| `RingKernel.Kernel.Close` | kernel/ringbuf.c:391-448 | any page number: -1 if and only if no ring has the name, with nothing done, or the page is not mapped, with the count one lower; a panic if and only if a page of the window is not mapped; else exactly the 33 pages there are unmapped, whatever they show, the count is one less, and at 0 the name goes and the 17 pages are freed; but for a panic the table is in order if and only if no ring had the name or the process had that window of it open |
| `RingKernel.Kernel.Open` | kernel/ringbuf.c:490-506 | append when a ring has the name and create when none has, with their exact failures, from every table in order |
| `RingKernel.Kernel.Ringbuf` | kernel/ringbuf.c:450-520 | from every table in order: refused outright with MAX_RINGBUFS live rings or a name that is too long, else the step of open or close with its exact result; afterwards the table is in order with every page free or held by one ring if and only if the call was harmless |
| `RingCalls.StepKeeps` | kernel/ringbuf.c:450-520 | exactly these calls leave the table in order and lose no page: refused ones, opens without room, reported appends, reported creates in a free slot, closes of an open window or of no ring |
| `RingCalls.OpenHarm` | kernel/ringbuf.c:490-506 | an open leaves the table in order unless an append's copyout fails, and keeps every page unless a copyout fails or a live ring is stored over |
| `RingCalls.CloseHarm` | kernel/ringbuf.c:391-448 | a close leaves the table in order if and only if no ring has the name or the process has that window of it open, and then loses no page |
| `RingCalls.CreatedKeeps` | kernel/ringbuf.c:297-300 | a create leaves the table in order, and keeps every page if and only if the slot at the live count is free |
| `RingCalls.CreatedOver` | kernel/ringbuf.c:297-300 | the ring that is stored over loses its name, and its pages are neither free nor held |
| `RingCalls.LeakedLoses` | kernel/ringbuf.c:290-295 | a create whose copyout fails leaves the table in order and loses exactly its 17 pages |
| `RingCalls.StrayBreaks` | kernel/ringbuf.c:363-368 | an append whose copyout fails leaves a window that no count knows of |
| `RingCalls.StepPrefix` | kernel/ringbuf.c:207-217 | live rings stay a prefix of the table under every call but the last close of a ring that is not the highest |
| `RingCalls.RunKeeps` | kernel/ringbuf.c:450-520 | in every run in which processes close their own windows, give up only the highest ring and have writable addresses, no ring is overwritten and no page is lost |
| `RingCalls.FullForever` | kernel/ringbuf.c:457-465 | from a full table no run of any calls changes anything, closes included |

## Left out

- uvmfirst, uvmclear, kvmmap, copyin, copyout: not modelled; user memory appears as readable and storable prefixes.
- Vm.Machine.Uvmunmap: with do_free it requires that the frames before the first page it panics on are data pages, each mapped once there; a frame freed twice is stated by Vm.Machine.Kfree.
- Vm.Machine.Uvmdealloc: the same requirement.
- Vm.Machine.UnmapPage: the same requirement of its one frame.
- VmRun.Perform: requires that each call frees only frames nothing else holds; VmRun.OwnedCareful says when a sequence does.
- VmRun.Translate: the same requirement.
- Sizes and addresses in Vm.dfy are natural numbers: wrap-around of `va + size` and of rounded sizes near 2^64 is not modelled.
- Directories, paths, link counts, inode allocation and the in-memory inode table.
- Type, device numbers and link count of an inode: FsCrash.dfy encodes its size and addresses in the inode's block.
- In Fs.dfy the disk is what the buffer cache shows.
- FsCrash.FilewriteCrash: the transactions of this filewrite commit alone; calls of other processes in the same commit are LogSystem.CrashDurable, at the level of blocks.
- Sleeping inside begin_op and bget: a step is enabled once its wait is over; that it ends is not proved.
- Bcache.Cache.Bunpin: the age of a buffer counts releases by brelse, so dropping the last reference with bunpin does not renew it.
- Umalloc.Heap.Morecore: sbrk is taken to grant the units asked for, which by SbrkExact is the code's behaviour below 2^27 units.
- Umalloc.Heap.Malloc: the 32-bit width of header sizes is not modelled.
- Kills in the pipe, beyond the two lemmas about a killed writer; pipealloc's failure paths; freeing the pipe after both closes.
- Scheduling of the pipe and of the rb loops: in the pipe some step is always possible and RingWhole.Transfer is a run to the end; that a fair scheduler always gets there is not stated.
- PipeCalls.WriterStream: says nothing of a process after one of its copyins has failed or the read end is closed; PipeCalls.WriteReturns covers each such call by itself.
- PipeCalls.Transfer: the same, and one writing process.
- LogCommit.CommitFinishes: requires that nobody holds a buffer of the log or of a logged block and that one buffer is free; waiting for them is not modelled.
- LogCommit.EndDurable: the same.
- LogCommit.UpdateDurable: the same, with the call's own buffer besides.
- RingStream.EndToEnd: a transfer of 10 MB, so the counters do not reach 2^64; RingProto.dfy and RingJam.dfy cover the wrap.
- RingKernel.Kernel.Create: page-table pages are taken to be available.
- RingKernel.Kernel.Append: the same.
- RingKernel.Kernel.Close: the address is page-aligned; uvmunmap panics on one that is not.
- RingKernel.Kernel.MapNew: requires an unmapped page below KERNBASE, which RingLink.ImageGap proves of process images, and page-table pages to be available.
- RingKernel.Kernel.Ringbuf: requires a name that is not empty (an empty one matches every free slot) and a table in order; what a harmful call leaves is stated, what calls do after it is not.
- RingKernel.Kernel.Open: the same.
- In RingPages.dfy page tables are flat maps whose pages are all user pages, as Vm.dfy proves of the trees; page-table pages are not counted.
- Processes that exit with a ring mapped; the per-process table of ring descriptors.
- Devices, interrupts, scheduling, spinlock and sleeplock internals, memory fences, exec, console and string helpers.
