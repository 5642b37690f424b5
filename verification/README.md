# A verified model of the Rust xv6 kernel

This project models the parts of a Rust port of the xv6 kernel in which a mistake is hard to see by reading, and proves
what they promise. Each part is modelled in the form that the kernel gives it. Data structures that the kernel changes
in place are classes with methods; protocols between threads, CPUs and devices are transition systems over their atomic
steps; the laws that tie the parts together are lemmas over every input, every run or every reachable state.

`dafny verify dfyconfig.toml` checks everything.

## The parts

**Crash-safe storage.** `Blocks` has blocks of bytes and words. `LogCrash` has the on-disk log: its header, the flushes
of a commit and of a recovery, and what the disk is worth to the file system after any prefix of them. `LogRuns` puts
the log to work: operations that start, write and end in any order, commits, power failures at any flush, recoveries
that are themselves cut short. Its measure is a flat block store updated by whole transactions. `LogSpace` is about the
reservation that `is_full` makes. `Cache`, `BufferCache` and `Log` are the code: the circular list of slots, the
reference counts, the buffers over the disk, and the loops of disk writes of `commit` and `initialize`, whose flushes
are proved to be those of `LogCrash`. `LogRefines` shows that every call of these methods is a run of `LogRuns`, so that
what holds of all runs holds of the disk under the code. `LogSlots` has commits that find no buffer. `LogSleep` is about
who sleeps in `start`.

**Files.** `FsTree` and `FsSteps` say who refers to which block and what each elementary step keeps. `FsSpace` counts
free and missing blocks. `FileSystem` has `offset_to_block`, `copy_from`, `copy_to`, `truncate`, the block allocator and
the loop of `File::write`; `FsBudget` carries out a write that needs all of the ten blocks that an operation may log. `Bitmap` is the
bitmap of bytes.

**The disk driver.** `Virtio`, `VirtioQueue`, `VirtioRuns` and `VirtioResults` are driver, device and interrupt handler
as one transition system, for any number of callers and every queue size that the standard allows and three descriptors
fit into, the powers of two from 4 to 32768. `VirtioPool` is the allocation of descriptors alone, for every number of them
from 3 on. `VirtioDisk` has the critical sections on the arrays. The format follows section 2.6 of VIRTIO 1.1.

**Memory.** `Pte` and `PageTree` are Sv39 page tables in physical memory (section 4.4 of the RISC-V Privileged
Architecture, version 20211203), with a role for every page of the allocator: free, a table, owned by one mapping, or
lent. `PageTable` has the operations, `PageDrop` what a drop frees, `UserMemory` the copies to and from user programs,
`Allocator` the free list.

**Processes.** `Process`, `ProcessRuns`, `ProcessWait` and `ProcessResults` are processes, their locks and the CPUs as
one transition system in which `wakeup`, `wait` and `exit` walk over the table slot by slot. `ProcessTable` has the
loops over the table. `SleepWakeup` is `process::sleep` for any lock and token. `Pipe` and `PipeSleep` are pipes and sleep
locks.

**User-space malloc.** `MallocHeap` and `Malloc` are Kernighan and Ritchie's allocator (The C Programming Language,
2nd edition, section 8.7).

## Promises that the code does not keep

In each case the code is modelled as it is; a lemma gives an input or a run that goes wrong, and another one says
exactly when nothing does.

- `Log::write` asserts `n < size - 1`, and mkfs gives the log LOGSIZE blocks. The thirtieth block that the reservation
  promises fails the assertion. All appends pass if and only if the log has more than LOGSIZE blocks
  (`LogSpace.ThirtiethBlockFails`, `LogSpace.AppendsPassIff`).
- `Log::write` asserts that there is room before it looks whether the block is already logged. Rewriting a block of a
  full log fails. All writes pass if and only if operations stay below MAXOPBLOCKS (`LogSpace.FullRewriteFails`,
  `LogSpace.WritesPassIff`).
- NBUF equals LOGSIZE, and `commit` unwraps a `None` where it finds no buffer. It finds one for a block of the log area if
  and only if that block is held already or the logged blocks and the other blocks that somebody holds are fewer than the
  buffers (`Log.Log.SlotsSufficeIff`). A full log, which needs more than LOGSIZE blocks on disk, has too many
  (`LogSlots.FullLog`); with the log that mkfs makes, one reader beside a log of 29 blocks is enough
  (`LogSlots.OneReader`): `File::read` holds its buffer outside of any operation.
- The comment on `map` allows a `va` that is not page-aligned, but `last` is computed from the rounded `va`. All bytes
  are mapped if and only if they end within as many pages as `size` bytes alone fill (`PageTable.MapAcross`,
  `PageTable.MapCoversIff`).
- The comment on `shrink` allows an `old_size` that is larger than the process, but `unmap` unwraps the entry of every
  page. `shrink` returns if and only if all pages between the two sizes are mapped (`PageTable.ShrinkTooFar`,
  `PageTable.Machine.Shrink`).
- `malloc` takes any 32-bit request, but `morecore` hands `sbrk` an `int`. It is asked for as many bytes as join the free
  list if and only if the request is at most 2^31 - 32 bytes; the largest request gets 16 bytes under a header that claims
  4 GiB (`Malloc.LargestRequest`, `Malloc.SbrkGrantsIff`).
- A writer to a pipe that sees that it has been killed returns without a wakeup. A reader may sleep on over the bytes
  that it has put in; this is the only way (`PipeSleep.LostWakeup`, `PipeSleep.StepInvIff`).

## Model

| member | source | states |
|---|---|---|
| Blocks.PutWordsGet | kernel/src/filesystem/buffer.rs:131-152 | words written into a block are read back little-endian, and the rest of the block is kept |
| LogCrash.HeaderRoundTrip | kernel/src/filesystem/log.rs:36-50 | whatever a buffer held, a header written into it announces exactly its first n block numbers |
| LogCrash.LoggingPrefix | kernel/src/filesystem/log.rs:179-191 | after any prefix of `write_log` the disk is worth what it was before the commit |
| LogCrash.Announced | kernel/src/filesystem/log.rs:145-156 | the first header write switches the disk to the whole transaction |
| LogCrash.RecoveryInstalling | kernel/src/filesystem/log.rs:158-177 | after any number of installed blocks the disk is worth the same |
| LogCrash.RecoveryDone | kernel/src/filesystem/log.rs:193-202 | a complete recovery leaves the announced contents at home and an empty log |
| LogCrash.RecoveryPrefix | kernel/src/filesystem/log.rs:193-202 | a recovery that stops after any flush leaves a disk worth the same, from which it can be run again |
| LogCrash.RepeatedRecovery | kernel/src/filesystem/log.rs:193-202 | any number of crashes during recovery do not change what the recovery that completes installs |
| LogCrash.CommitIsLogThenRecovery | kernel/src/filesystem/log.rs:86-95 | once announced, the rest of a commit is flush for flush a recovery |
| LogCrash.CommitDone | kernel/src/filesystem/log.rs:86-95 | a complete commit leaves every block of the transaction at home, all others as they were, and an empty log |
| LogCrash.CrashAtomicity | kernel/src/filesystem/log.rs:86-95 | for every last flush of a commit and any number of interrupted recoveries, the recovered home blocks are exactly those before or those after it, switching at the first header write |
| LogRuns.StepInv | kernel/src/filesystem/log.rs:78-121 | every start, write, end, flush and power failure keeps disk, cache and transactions in step |
| LogRuns.CommitShows | kernel/src/filesystem/log.rs:86-95 | every prefix of a commit of the cached blocks shows the home blocks before it or the cached contents |
| LogRuns.CommitFlushInv | kernel/src/filesystem/log.rs:86-95 | a flush of a commit keeps the invariant, and the announcement appends one transaction |
| LogRuns.RecoveryFlushInv | kernel/src/filesystem/log.rs:193-202 | a flush of a recovery keeps the invariant, and the last one reloads the cache from what was committed |
| LogRuns.StepWhole | kernel/src/filesystem/log.rs:97-121 | all writes of an operation are in one transaction, and an operation with a committed write has ended |
| LogRuns.RunInv | kernel/src/filesystem/log.rs:78-131 | the invariants hold after every run |
| LogRuns.RunsAreAtomic | kernel/src/filesystem/log.rs:78-131 | after any interleaving and a crash at any point, recovery yields the flat store after a whole number of transactions; nothing is logged during a commit, no operation is split, and readers see committed plus open writes |
| LogRuns.CommitsExtend | kernel/src/filesystem/log.rs:97-107 | committed transactions are never taken back |
| LogSpace.SpaceSuffices | kernel/src/filesystem/log.rs:74-84 | with room for LOGSIZE blocks and operations of at most MAXOPBLOCKS blocks, every append finds a slot in every run |
| LogSpace.StepSpace | kernel/src/filesystem/log.rs:74-121 | the logged blocks and what the operations may still claim together never exceed LOGSIZE |
| LogSpace.ThirtiethBlockFails | kernel/src/filesystem/log.rs:109-112 | with a log of at most LOGSIZE blocks there is a legal run whose next append fails the assertion |
| LogSpace.AppendsPassIff | xv6/mkfs/mkfs.c:25 | every append passes in every run if and only if the log has more than LOGSIZE blocks |
| LogSpace.FullRewriteFails | kernel/src/filesystem/log.rs:109-116 | with operations of ten blocks there is a legal run whose next rewrite of a logged block fails the assertion |
| LogSpace.WritesPassIff | kernel/src/filesystem/log.rs:109-116 | every write passes in every run if and only if operations stay below MAXOPBLOCKS |
| Cache.InitialRing | kernel/src/cache.rs:28-58 | the freshly linked slots form one circle without keys |
| Cache.RelinkRing | kernel/src/cache.rs:111-138 | the pointer updates of `remove` move the slot to the end of the circle and keep it a circle |
| Cache.RotateRing | kernel/src/cache.rs:111-138 | moving the head by one place is the same as moving that slot to the end |
| Cache.TraversalsCover | kernel/src/cache.rs:60-78 | following `next` from the head, or `prev` from the tail, passes every slot exactly once |
| Cache.ToEndByRemoval | kernel/src/cache.rs:111-138 | the circle stays in the order of last removals |
| Cache.Moved | kernel/src/cache.rs:111-138 | what `remove` makes of the circle for a head, a tail and an inner slot |
| Cache.Cache.constructor | kernel/src/cache.rs:28-58 | a valid circle of all slots in index order, without keys |
| Cache.Cache.Find | kernel/src/cache.rs:80-86 | a slot with the key if there is one, None only if there is none |
| Cache.Cache.FindUnused | kernel/src/cache.rs:88-93 | of the slots without a key the one removed last |
| Cache.Cache.Get | kernel/src/cache.rs:95-109 | keys stay unique; None if and only if the key is absent and all slots are taken; a new key goes to the most recently released slot |
| Cache.Cache.Remove | kernel/src/cache.rs:111-138 | the slot loses its key and becomes the last of the circle; None if and only if the index is out of range |
| Cache.Cache.Splice | kernel/src/cache.rs:124-134 | the pointer updates for an inner slot |
| Cache.RcCache.constructor | kernel/src/cache.rs:147-152 | no keys, no references |
| Cache.RcCache.Get | kernel/src/cache.rs:154-161 | counts one more reference on the slot of the key; a count stays positive exactly where there is a key |
| Cache.RcCache.Duplicate | kernel/src/cache.rs:163-172 | counts a reference; counts and keys stay in step exactly if the slot was live |
| Cache.RcCache.Release | kernel/src/cache.rs:174-188 | gives up a reference; the last one frees the slot, and true is returned then only |
| BufferCache.BufferCache.constructor | kernel/src/filesystem/buffer.rs:71-82 | an empty cache over the disk |
| BufferCache.BufferCache.Get | kernel/src/filesystem/buffer.rs:84-107 | hands out the one slot of the block; None if and only if it is not cached and every slot is taken; a buffer that is not new holds the last logged contents or else those on disk |
| BufferCache.BufferCache.WithRead | kernel/src/filesystem/buffer.rs:109-129 | yields the last logged contents or else those on disk, and touches no other buffer; never fails for a block that is logged, however full the cache is |
| BufferCache.BufferCache.WithWrite | kernel/src/filesystem/buffer.rs:131-152 | overwrites the front of the buffer and keeps the rest, whatever was there |
| BufferCache.BufferCache.Modify | kernel/src/filesystem/buffer.rs:47-57 | a change reaches one buffer only |
| BufferCache.BufferCache.Drop | kernel/src/filesystem/buffer.rs:59-63 | the slot is freed exactly if it was the last handle and the block is not pinned |
| BufferCache.BufferCache.Pin | kernel/src/filesystem/buffer.rs:158-160 | from now on the block is worth the contents of its buffer, and keeps its slot |
| BufferCache.BufferCache.Unpin | kernel/src/filesystem/buffer.rs:162-165 | is never the last release: no slot loses its block |
| BufferCache.BufferCache.Flush | kernel/src/filesystem/buffer.rs:182-188 | writes the buffer to its block and to no other, and drops the handle |
| BufferCache.BufferCache.CopyBlock | kernel/src/filesystem/log.rs:164-173 | reading one block and writing it over another puts what the first is worth on disk there, in one flush |
| BufferCache.BufferCache.FreeSlotIff | kernel/src/filesystem/buffer.rs:84-107 | a slot is left if and only if the blocks that are logged or held are fewer than the buffers, and exactly these blocks are cached |
| Log.HeaderAnnounces | kernel/src/filesystem/log.rs:145-156 | a block that begins with the bytes of a header announces its first n blocks |
| Log.Log.Start | kernel/src/filesystem/log.rs:78-84 | once entered, every outstanding operation can log ten blocks without overflow; a caller is sent to sleep only if a commit is under way or one more operation could overflow the log |
| Log.Log.Write | kernel/src/filesystem/log.rs:109-121 | the block is logged with the contents of its buffer, appended if it is new and absorbed if not; header and pinned blocks stay the same set |
| Log.Log.WriteLog | kernel/src/filesystem/log.rs:179-191 | its flushes are the logged contents, in header order, to the log area |
| Log.Log.WriteHeader | kernel/src/filesystem/log.rs:145-156 | its flush announces exactly the header in memory |
| Log.Log.InstallBlocks | kernel/src/filesystem/log.rs:158-177 | its flushes are the logged copies to their home blocks; everything is unpinned, and the header is empty |
| Log.Log.Commit | kernel/src/filesystem/log.rs:86-95 | its flushes are those of `LogCrash.CommitFlushes` for the logged contents; nothing is written if nothing is logged |
| Log.Log.End | kernel/src/filesystem/log.rs:97-107 | the last operation to end commits everything logged, and no other one writes to the disk |
| Log.Log.ReadHeader | kernel/src/filesystem/log.rs:133-143 | the header in memory names what the disk announces |
| Log.Log.Initialize | kernel/src/filesystem/log.rs:193-202 | its flushes are a recovery: the announced contents are at home and the log is empty |
| Log.Log.SlotsSufficeIff | kernel/src/filesystem/log.rs:179-191 | `commit` finds a slot for a block of the log area if and only if somebody holds that block or n and the other held blocks are fewer than the buffers |
| LogSlots.FullLog | kernel/src/config.rs:26-32 | three operations log 30 blocks through the cache, and the commit finds no slot |
| LogSlots.OneReader | kernel/src/file.rs:82-84 | three operations log 29 blocks in the log that mkfs makes, a reader holds one more block, and the commit finds no slot |
| LogRefines.FlushRun | kernel/src/filesystem/log.rs:86-95 | the flushes of a commit or recovery, one step each, leave the disk as the code leaves it |
| LogRefines.Start | kernel/src/filesystem/log.rs:78-84 | a call of the method is the step `Start` of a run, or no step if the caller must sleep |
| LogRefines.Write | kernel/src/filesystem/log.rs:109-121 | a call of the method is the step `Write` of a run, with the contents of the buffer |
| LogRefines.End | kernel/src/filesystem/log.rs:97-107 | a call of the method is the step `End` of a run, and all flushes of the commit if it is the last operation |
| LogRefines.Recover | kernel/src/filesystem/log.rs:193-202 | after a power failure anywhere in a run, `initialize` over a new cache is the rest of the run, and the log stands for it again |
| LogSleep.NobodyWaitsInVain | kernel/src/filesystem/log.rs:78-107 | in every run nobody sleeps in `start` who could enter, a sleeper has a commit or an operation to wait for, and the assertion of `end` holds |
| Bitmap.RequireBytes | kernel/src/bitmap.rs:2-4 | the least number of bytes that holds the bits |
| Bitmap.OneBit | kernel/src/bitmap.rs:7-14 | changing one bit of a byte changes no other bit of the map |
| Bitmap.Bitmap.Get | kernel/src/bitmap.rs:61-67 | the bit, or None out of range |
| Bitmap.Bitmap.Set | kernel/src/bitmap.rs:69-80 | sets exactly that bit; an error out of range changes nothing |
| Bitmap.Bitmap.Allocate | kernel/src/bitmap.rs:44-52 | takes the lowest clear bit, and fails if and only if there is none |
| Bitmap.Bitmap.Deallocate | kernel/src/bitmap.rs:54-59 | clears a set bit; anything else is an error and changes nothing |
| FsTree.StoreAt | kernel/src/fs.rs:113-144 | noting a block at a direct, indirect or chain place changes what is noted there and nowhere else |
| FsTree.StoreOwned | kernel/src/fs.rs:113-144 | no block comes to be referenced twice, and every referenced one is a marked data block |
| FsTree.WriteByte | kernel/src/fs.rs:235-279 | writing a block of a file changes the bytes of that block and no others |
| FsSteps.MarkUsedInv | kernel/src/fs.rs:426-449 | marking and zeroing a free block disturbs no file, and the block was a data block that nobody referred to |
| FsSteps.StoreInv | kernel/src/fs.rs:113-144 | a new block of a file keeps block ownership and every byte of every file |
| FsSteps.ResizeInv | kernel/src/fs.rs:275-276 | a new size within the blocks of the file keeps files free of holes |
| FsSteps.TruncatedInv | kernel/src/fs.rs:327-351 | without the blocks of one file the invariant holds, and no byte of another file has changed |
| FsSteps.EvictInv | kernel/src/fs.rs:494-539 | an inode dropped without `update` may lose track of blocks, but no reference to a free or shared block arises and no byte below a size changes |
| FsSpace.NeedStep | kernel/src/fs.rs:113-144 | from block to block of a write, the free blocks minus those still needed stay the same |
| FileSystem.FileSystem.AllocateBlock | kernel/src/fs.rs:426-449 | the lowest free block, marked and zeroed; None if and only if the disk is full |
| FileSystem.FileSystem.OffsetToBlock | kernel/src/fs.rs:113-144 | the block of an offset, allocated and zeroed if it is missing; what has changed is logged, every file stays as it is, and at most the block and the indirect block have been taken |
| FileSystem.FileSystem.CopyFrom | kernel/src/fs.rs:235-279 | splices the bytes in and extends the size, or says how much it spliced; fails exactly for a bad range or too few free blocks; other bytes and files are unchanged; logs all it changes, and at most ten blocks for three blocks of bytes |
| FileSystem.FileSystem.CopyTo | kernel/src/fs.rs:146-187 | exactly the requested slice, clipped to the size, across direct and indirect blocks; fails if and only if the destination is shorter than that |
| FileSystem.FileSystem.FreeBlock | kernel/src/fs.rs:451-459 | one more block is free, no byte of any file has changed, and the change has been logged |
| FileSystem.FileSystem.Truncate | kernel/src/fs.rs:327-351 | frees exactly the blocks that the file owned, each once; empties it in memory and on disk, leaves other files alone, and logs all it changes |
| FileSystem.FileSystem.EvictInode | kernel/src/fs.rs:494-539 | the next user finds what is on disk, and no byte of any file below its size has changed |
| FileSystem.FileSystem.FileWrite | kernel/src/file.rs:119-143 | all bytes are in the file on success and a prefix on failure; each turn logs at most ten blocks; it fails only for want of readable bytes, room in the file or free blocks |
| FileSystem.AffordsTen | kernel/src/file.rs:119-125 | an operation of three blocks of bytes at any offset logs at most ten blocks |
| FileSystem.FirstBlock | kernel/src/fs.rs:235-257 | files have no holes, so the block of an unaligned first byte is already there |
| FsBudget.TenIsReached | kernel/src/file.rs:119-125 | three blocks of bytes behind the end of a file on a scattered disk log ten blocks |
| FsBudget.ScatteredExists | kernel/src/file.rs:119-125 | there is such a disk, with enough free blocks for the write to succeed |
| FsBudget.TenIsAttained | kernel/src/fs.rs:235-279 | `copy_from` carried out on such a disk succeeds and has logged ten blocks |
| Virtio.GrabSpec | kernel/src/virtio/disk.rs:193-200 | a run of the allocation loop takes as many descriptors as are missing and left, and keeps each with one owner |
| Virtio.Disjoint | kernel/src/virtio/disk.rs:188-200 | no two callers share a descriptor |
| Virtio.GrabCounted | kernel/src/virtio/disk.rs:193-200 | at most one caller is left with a partial chain, of exactly n mod 3 descriptors |
| Virtio.ReturnCounted | kernel/src/virtio/disk.rs:255-260 | giving back a chain keeps the count |
| Virtio.ChainOutstanding | kernel/src/virtio/disk.rs:193-200 | with no descriptor free, a complete chain is under way |
| VirtioQueue.LinkedDecodes | kernel/src/virtio/disk.rs:201-241 | the device reads from the chain the request that the caller made |
| VirtioQueue.AvailRoom | kernel/src/virtio/disk.rs:243-251 | an available entry that the device has not fetched is never overwritten |
| VirtioQueue.UsedRoom | kernel/src/virtio/disk.rs:287-302 | a used entry that the handler has not seen is never overwritten |
| VirtioQueue.WrappedSlot | kernel/src/virtio/disk.rs:243-251 | the slot of a wrapped 16-bit index is that of the true count, for every queue size |
| VirtioRuns.FetchSpec | kernel/src/virtio/disk.rs:243-253 | the device finds the oldest chain that it has not fetched |
| VirtioRuns.CompleteSpec | kernel/src/virtio/disk.rs:201-241 | the device carries out what the caller of that chain asked for |
| VirtioRuns.HandleSpec | kernel/src/virtio/disk.rs:287-302 | the handler finds the oldest completion that it has not seen, and its caller still waits |
| VirtioRuns.SubmitQueue | kernel/src/virtio/disk.rs:201-253 | publishing a chain keeps rings, chains and waiting callers in step |
| VirtioRuns.InitialInv | kernel/src/virtio/disk.rs:149-157 | the driver starts in a state that satisfies the invariant |
| VirtioRuns.StepInv | kernel/src/virtio/disk.rs:188-303 | every step of every caller, the device and the handler keeps the invariant, across wrap-around of the indices |
| VirtioResults.AllocationNeverDeadlocks | kernel/src/virtio/disk.rs:188-200 | in every reachable state one caller at most holds a partial chain, of n mod 3 descriptors, and whoever sleeps for a descriptor does so with a complete chain under way |
| VirtioPool.PoolNeverDeadlocks | kernel/src/virtio/disk.rs:188-200 | for every number of descriptors from three on, after any run at most one caller holds a partial chain, of n mod 3 descriptors, and a descriptor is free or a complete chain is held |
| VirtioResults.AlwaysMoves | kernel/src/virtio/disk.rs:188-303 | while a call is under way some caller, the device or the handler can move |
| VirtioResults.MoveLess | kernel/src/virtio/disk.rs:188-303 | every such move leaves less work |
| VirtioResults.EveryCallReturns | kernel/src/virtio/disk.rs:188-261 | under every schedule all calls under way return |
| VirtioResults.ExactlyOnce | kernel/src/virtio/disk.rs:255-261 | a caller returns only after the device has carried out its own request, exactly once, and reported it |
| VirtioDisk.Disk.AllocateChain | kernel/src/virtio/disk.rs:193-200 | takes the lowest free descriptors until three are held or none is left |
| VirtioDisk.Disk.Publish | kernel/src/virtio/disk.rs:201-251 | writes the chain, the info slot and the ring entry that the transition system assumes |
| VirtioDisk.HandledInfo | kernel/src/virtio/disk.rs:287-302 | exactly the operations that the unseen entries report are no longer in use, and nothing else in memory has changed |
| VirtioDisk.Disk.InterruptHandler | kernel/src/virtio/disk.rs:287-302 | sees every completion in the ring, and clears exactly the operations that are reported |
| VirtioDisk.Disk.Finish | kernel/src/virtio/disk.rs:164-167 | frees exactly the three descriptors, and its unwraps hold |
| VirtioDisk.HandledStep | kernel/src/virtio/disk.rs:287-302 | the handler's loop ends although its index wraps |
| Pte.FieldsIndependent | kernel/src/riscv/paging.rs:100-118 | the address and the flags of an entry are set and read independently |
| Pte.LeafFields | kernel/src/riscv/paging.rs:198-201 | what `map` writes is valid, with the given address and flags |
| Pte.BranchFields | kernel/src/riscv/paging.rs:298-327 | what `search_entry` writes is valid, points to the table, and is no leaf |
| PageTree.IndexInjective | kernel/src/riscv/paging.rs:45-50 | the three 9-bit indices name each page once |
| PageTree.Path | kernel/src/riscv/paging.rs:298-327 | a walk stays in the tree of its root, in the tables that serve the address |
| PageTree.Reach | kernel/src/riscv/paging.rs:298-327 | a walk reaches every last-level table of the tree, so no two serve the same addresses |
| PageTree.SetLeafLookup | kernel/src/riscv/paging.rs:198-201 | a changed leaf entry changes the translation of one page of one table |
| PageTree.AddTableValid | kernel/src/riscv/paging.rs:298-327 | a new table keeps the tables an unshared tree |
| PageTree.AddTableLookup | kernel/src/riscv/paging.rs:298-327 | a new table changes no translation of any table |
| PageTree.OnFreeListIff | kernel/src/allocator.rs:50-72 | a page is on the free list, once, if and only if that is its role: never while it is a table, owned or lent |
| PageDrop.PruneValid | kernel/src/riscv/paging.rs:434-454 | giving back an empty table and clearing its entry keeps the tables an unshared tree |
| PageDrop.FreedStep | kernel/src/riscv/paging.rs:434-454 | entry by entry, exactly the tables below become free, each once |
| PageDrop.AllUnderRoot | kernel/src/riscv/paging.rs:434-454 | every table of a root hangs below it |
| PageTable.Machine.Allocate | kernel/src/allocator.rs:50-56 | hands out a page that was free, and fails if and only if none is |
| PageTable.Machine.Deallocate | kernel/src/allocator.rs:59-72 | a lent page becomes free |
| PageTable.Machine.AllocateRoot | kernel/src/riscv/paging.rs:130-133 | a new root that maps nothing; no other table notices |
| PageTable.Machine.SearchEntry | kernel/src/riscv/paging.rs:298-327 | finds the table of the leaf entry; with `alloc` it builds tables without changing a translation and fails only without free pages |
| PageTable.Machine.Map | kernel/src/riscv/paging.rs:186-212 | maps as many pages as `size` bytes fill, to consecutive addresses with the given flags; nothing else changes, and a failure has mapped a prefix |
| PageTable.MapCoversIff | kernel/src/riscv/paging.rs:182-191 | every byte asked for is mapped if and only if they end within as many pages as `size` bytes alone fill |
| PageTable.UnalignedMapMisses | kernel/src/riscv/paging.rs:182-191 | of two bytes across a page boundary the second stays unmapped |
| PageTable.MapAcross | kernel/src/riscv/paging.rs:186-212 | `map` carried out on a new table for these two bytes leaves the second unmapped |
| PageTable.Machine.Unmap | kernel/src/riscv/paging.rs:217-235 | removes exactly its pages, and frees exactly the pages that they own; panics if and only if `va` is not aligned or a page is not mapped |
| PageTable.Machine.AddPage | kernel/src/riscv/paging.rs:152-176 | a fresh page of its own with the given contents is mapped, or no translation has changed and no page but tables has left the free list |
| PageTable.Machine.Shrink | kernel/src/riscv/paging.rs:271-284 | removes and frees exactly the whole pages above the new size; panics if and only if one of them is not mapped |
| PageTable.ShrinkTooFar | kernel/src/riscv/paging.rs:267-284 | in a process without pages, shrinking from one page to none panics |
| PageTable.Machine.Grow | kernel/src/riscv/paging.rs:239-265 | all or nothing: every new page is a fresh zeroed page of its own, or no translation has changed and no page but tables has left the free list |
| PageTable.Machine.Copy | kernel/src/riscv/paging.rs:145-180 | all or nothing, whoever owns the source: every page has a copy of its own with the same flags, or no translation has changed and no page but tables has left the free list |
| PageTable.Machine.DropTable | kernel/src/riscv/paging.rs:434-454 | gives back every table below, each once, and no other |
| PageTable.Machine.Drop | kernel/src/riscv/paging.rs:434-454 | exactly the pages of the tree are free again; no other table has changed |
| UserMemory.VirtualToPhysical | kernel/src/riscv/paging.rs:329-346 | the physical page of an address that the user may reach, None otherwise |
| UserMemory.Write | kernel/src/riscv/paging.rs:348-375 | the bytes are at the address; a failure has written exactly the reported prefix, up to the first page that cannot be reached; no other byte of any table has changed |
| UserMemory.Read | kernel/src/riscv/paging.rs:377-402 | the bytes that the user sees, or exactly the reported prefix |
| UserMemory.ReadCstr | kernel/src/riscv/paging.rs:405-431 | succeeds if and only if a NUL lies within the buffer length over reachable pages, and has then copied the string |
| UserMemory.WriteThenRead | kernel/src/riscv/paging.rs:348-402 | what has been written is what is read, whatever pages the range crosses |
| UserMemory.CopyIsolates | kernel/src/riscv/paging.rs:145-180 | after a copy, writes through the source do not change what the target reads |
| UserMemory.CopyIsolatesSource | kernel/src/riscv/paging.rs:145-180 | after a copy, writes through the target do not change what the source reads |
| UserMemory.NoSharedByte | kernel/src/riscv/paging.rs:329-346 | no two user addresses, of one table or of two, are the same byte of physical memory |
| UserMemory.AddedAllOwned | kernel/src/riscv/paging.rs:145-265 | the pages that `grow` and `copy` add leave every page that users can reach with one owner |
| Allocator.KernelAllocator.AllocatePage | kernel/src/allocator.rs:50-56 | takes the page put back last; None if and only if the list is empty |
| Allocator.KernelAllocator.DeallocatePage | kernel/src/allocator.rs:59-72 | the page joins the list, which stays linked through distinct pages |
| Allocator.KernelAllocator.RegisterPages | kernel/src/allocator.rs:38-47 | exactly the whole pages of the region become free, each once |
| ProcessRuns.DispatchCore | kernel/src/process.rs:350-368 | a runnable process whose lock is free is in no CPU slot and can be dispatched |
| ProcessRuns.AssignCore | kernel/src/process.rs:46-54 | the lock that the process drops is the one that its scheduler took |
| ProcessRuns.ReleaseCore | kernel/src/process.rs:56-58 | the lock that the scheduler drops is the one that the process took |
| ProcessRuns.LeaveCore | kernel/src/process.rs:370-383 | going to sleep, yielding and dying hand the lock over on the same CPU |
| ProcessRuns.ReapCore | kernel/src/process.rs:391-425 | a zombie whose lock is free has left its CPU, so its slot can be reused |
| ProcessRuns.ForkDoneCore | kernel/src/process.rs:296-314 | a new process becomes runnable in no CPU slot |
| ProcessWait.GiveAwayWait | kernel/src/process.rs:316-348 | giving a child to init leaves at most the wakeup that is about to come |
| ProcessWait.WakeInitWait | kernel/src/process.rs:316-348 | once the wakeup has passed init, init is awake |
| ProcessWait.WakeParentWait | kernel/src/process.rs:316-348 | once the wakeup has passed the parent, the parent is awake before its child is a zombie |
| ProcessWait.DieWait | kernel/src/process.rs:316-348 | becoming a zombie finds no parent asleep in `wait` |
| ProcessWait.ScanEndWait | kernel/src/process.rs:391-425 | a process goes to sleep in `wait` only after it has seen all its children alive, under the wait lock |
| ProcessWait.ForkLinkWait | kernel/src/process.rs:296-314 | noting the parent of a new process loses no child |
| ProcessResults.StepAll | kernel/src/process.rs:276-425 | every step on any CPU keeps the invariant |
| ProcessResults.RunAll | kernel/src/process.rs:276-425 | the invariant holds after every run |
| ProcessResults.SchedulerSafety | kernel/src/process.rs:350-389 | in every reachable state a process is in at most one CPU slot, and with its lock free it is running if and only if a slot is assigned to it |
| ProcessResults.LockHandedOver | kernel/src/process.rs:28-59 | a process lock held across a switch is given up once, by the other side on the same CPU |
| ProcessResults.NoLostChild | kernel/src/process.rs:391-425 | in every reachable state with the wait lock free, no process asleep in `wait` has a zombie child |
| ProcessResults.ReapedOnce | kernel/src/process.rs:391-425 | a zombie is reaped once, and only after its CPU has left its kernel stack |
| ProcessResults.UnwrapsHold | kernel/src/process/process.rs:51-115 | the state transitions that the code unwraps never fail |
| ProcessTable.ProcessTable.AllocateProcess | kernel/src/process/table.rs:40-50 | the first unused slot and the next id; None if and only if no slot is unused |
| ProcessTable.ProcessTable.Wakeup | kernel/src/process/table.rs:52-65 | every process but the caller that sleeps on the token becomes runnable, and nothing else changes |
| ProcessTable.ProcessTable.Kill | kernel/src/process/table.rs:67-79 | marks the first process with the id and wakes it; false if and only if there is none |
| Pipe.PipeInner.Write | kernel/src/pipe.rs:78-103 | puts bytes in order into the ring until done, full, failed or killed; what is in the buffer and what has been taken out is always what was put in |
| Pipe.PipeInner.Read | kernel/src/pipe.rs:105-131 | takes the oldest bytes out; what has been taken out is a prefix of what has been put in |
| Pipe.PipeInner.CloseRead | kernel/src/pipe.rs:66-70 | from then on no write puts anything in or sleeps: it fails unless nothing is left to write |
| Pipe.PipeInner.CloseWrite | kernel/src/pipe.rs:72-76 | from then on no read sleeps, and reads take out exactly what is left |
| PipeSleep.WriteRunSpec | kernel/src/pipe.rs:78-103 | how many bytes a critical section of `write` puts in, and why it stops |
| PipeSleep.KilledWriteIff | kernel/src/pipe.rs:78-103 | a write leaves a reader asleep over bytes if and only if its caller is killed midway while a reader sleeps |
| PipeSleep.StepInvIff | kernel/src/pipe.rs:66-131 | a step keeps sleepers and contents in step if and only if it is not such a write |
| PipeSleep.RunInv | kernel/src/pipe.rs:66-131 | the invariant holds after every run without such writes |
| PipeSleep.NobodySleepsInVain | kernel/src/pipe.rs:66-131 | in every such run a sleeping reader means empty with a writer's end open, a sleeping writer means full with a reader's end open, and never both |
| PipeSleep.LostWakeup | kernel/src/pipe.rs:80-83 | the run from a new pipe after which a reader sleeps over a byte |
| SleepLock.NobodySleepsUnlocked | kernel/src/sleeplock.rs:30-45 | in every run nobody sleeps on an unlocked lock, and a locked one has exactly one holder |
| SleepWakeup.StepInv | kernel/src/process.rs:276-294 | every step keeps that a thread on the way to sleep, or asleep, over a true condition has a wakeup coming that has not passed it |
| SleepWakeup.NoLostWakeup | kernel/src/process.rs:276-294 | in every run, for any lock and token, while nobody has the guard nobody is asleep or on the way to sleep over a true condition |
| MallocHeap.Apart | xv6/user/umalloc.c:24-90 | no two blocks, free or in use, overlap |
| MallocHeap.AbsorbValid | xv6/user/umalloc.c:33-37 | merging with the block above keeps the list circular, ordered and without blocks that touch |
| MallocHeap.JoinValid | xv6/user/umalloc.c:38-42 | merging with the block below keeps the list circular, ordered and without blocks that touch |
| MallocHeap.InsertValid | xv6/user/umalloc.c:33-43 | a block that touches nothing takes its place in address order |
| MallocHeap.UnlinkValid | xv6/user/umalloc.c:75-77 | a block handed out whole leaves the list |
| MallocHeap.CutValid | xv6/user/umalloc.c:78-82 | a block handed out from the tail of a free one is apart from it, and no unit is lost |
| Malloc.Turn | xv6/user/umalloc.c:30-32 | the loop of `free` stops exactly in the gap that the block belongs to, also at the wrap-around of the list |
| Malloc.FreeValid | xv6/user/umalloc.c:38-42 | the second half of `free` mends the list in either case |
| Malloc.Allocator.FindGap | xv6/user/umalloc.c:30-32 | finds the free block below, and ends |
| Malloc.Allocator.Free | xv6/user/umalloc.c:24-44 | the block is no longer in use, its units are in a free block at least as large, no unit is lost, and other blocks in use are undisturbed |
| Malloc.SbrkGrantsIff | xv6/user/umalloc.c:46-61 | `sbrk` is asked for what the new header claims if and only if the request is at most 2^31 - 32 bytes, and for less beyond |
| Malloc.LargestRequest | xv6/user/umalloc.c:46-61 | the largest request gets one unit under a header of 2^28 + 1 units |
| Malloc.Allocator.MoreCore | xv6/user/umalloc.c:46-61 | a region that `sbrk` was asked for in full joins the free list, and a block large enough for the request is free |
| Malloc.Allocator.Search | xv6/user/umalloc.c:74-86 | finds a block that is large enough, or goes once round the list and there is none |
| Malloc.Allocator.Malloc | xv6/user/umalloc.c:63-90 | a block of its own for the request; ends after at most one `morecore`; fails only if no free block is large enough and the system has no memory; units are conserved up to `morecore` |

## Left out

- Directories, path names, inode kinds, links and the allocation of inodes: file contents are modelled by inode number.
- The device number: there is one disk.
- `BufferCache::get`, the sleep lock and the fill of a new buffer are one step; two callers that race for a new buffer are not modelled.
- FileSystem.FileSystem.OffsetToBlock: takes buffers as available; the case that `with_read` finds every buffer in use is modelled in `BufferCache.BufferCache.WithRead` only.
- FileSystem.FileSystem.CopyFrom: a copy-in that faults leaves the block as it was, where the code may have changed a part of the buffer without logging it.
- FileSystem.FileSystem.FileWrite: has one writer on the shared offset of the file.
- FileSystem.FileSystem.EvictInode: claims no more than that references stay sound; blocks that a failed write has allocated may be lost when the inode is dropped.
- That mkfs leaves files without holes is assumed; the size of the root directory, which it rounds up, is not part of this model.
- PageTable.Machine.Drop: requires a table without mappings, for which the code would otherwise follow leaf entries as tables.
- The kernel's own page table, ELF loading, the trampoline, traps, CSRs, PLIC, UART, the console and device files.
- Virtio feature negotiation, and a device that reports failure or breaks the protocol: its status byte is always zero.
- Memory-ordering fences: steps are sequentially consistent, and a critical section of a spin lock is one step where it does not sleep.
- The error paths of `fork` and `try_clone`, and resources of a process other than its slot, its page table and its kernel stack's use by a CPU.
- Locks other than the process locks and the wait lock in the process system; a sleep under one of them is a sleep on a token.
- Process ids, the counters of pipes and reference counts do not wrap at the word size.
- Malloc.Allocator.Malloc: requires that a request for which the system answers is at most 2^31 - 32 bytes; what becomes of the heap beyond is not followed.
- PageTable.Machine.Copy: requires that every page of the source is mapped, as the code asserts, with a flag besides V.
- Interrupt enabling and its nesting depth in `SpinLock`.
- System call numbers and argument decoding, and the user programs other than malloc.
