# Verified models of the MINIX kernel IPC, the ext2 and hgfs servers and slugmem

The modules model six state machines of the repository and prove what their authors rely on. Code that changes its
state in place is a class or a method with loops here, and is proved against functions on plain values; the lemmas
about these functions say what the code is for.

**Kernel IPC and ready queues** (`Lists`, `Links`, `WaitGraph`, `Rendezvous`, `RendezvousProofs`, `ReadyProofs`,
`KernelRuns`, `Effects`, `MessageEffects`, `Delivery`, `Urgency`, `KernelTable`, `RunqueuesCheck`). `Rendezvous` gives
every operation of `proc.c` as a function on the process table. `Effects` and `MessageEffects` say what each operation
does to flags, queues, inboxes and kept messages of all processes without these functions. `RendezvousProofs`,
`ReadyProofs` and `KernelRuns` prove, for every run from boot: the wait-for graph has no cycles, a process is once on the
caller queue of the process it sends to and on no other, no rendezvous is missed, and the ready queues are what
`runqueues_ok` checks. `Delivery` proves that messages are received as they were sent, once and in order, and
`Urgency` that nothing runnable is more urgent than a preemptible process that runs. The class `KernelTable.Kernel` keeps the linked queues of
the kernel, boots, and refines the functions; its `Deadlock` is the detector, which ends and answers rightly because of that
invariant.

**ext2 block map and truncation** (`Division`, `BlockTree`, `FileMap`, `MapSteps`, `BlockMap`, `Truncate`). The
four-level tree of blocks refines a map from file blocks to disk blocks. `write_map` changes one entry of that map,
allocates and prunes exactly the indirect blocks on the way, and answers ENOSPC, which changes no mapping, exactly when
an allocation that it needs fails. `truncate_inode` cuts or
extends the bytes of the file.

**ext2 allocators** (`Bitmap`, `BlockAlloc`, `Allocator`, `BoundLost`, `GroupPickers`). Every block of the file system
has one owner: nobody, the system, a client, or one place of the preallocation list of one inode. Counts, bitmaps and
owners agree after every allocation, preallocation, free and discard, and the block that is given is the one nearest to
the goal in the order of the search. The pickers of a group for a new inode find one
whenever there is one.

**ext2 buffer cache** (`CacheContents`, `DoubleLinks`, `BufferQueue`, `BufferCache`). The content of a block is its
cached copy if there is one and the disk's otherwise. Lookups, evictions, releases and flushes change no content as
long as transfers succeed; `failures` counts those that do not.

**ext2 directories** (`DirBlock`, `SearchDir`). Bytes of directory blocks, tiled by variable-length records, refine a
list of entries.

**hgfs inode and dentry cache** (`Names`, `DentryTree`, `InodeTable`). A tree of entries, a name hash and a free list,
with the life cycle of the header file; deleting an entry fragments exactly its subtree, and references are counted
exactly.

**slugmem's hash table** (`SlugTable`). Linear probing in a table that grows by squaring its size.

Methods and lemmas without a row in the table below are parts into which the members with a row are split.

## Where the code differs from what is said about it

- `do_sync_ipc` does not refuse a receive from the caller's own endpoint. `KernelRuns.SelfReceive` says exactly when
  that closes a cycle; the events of `KernelRuns` leave such calls out.
- `sched_proc` accepts the priority NR_SCHED_QUEUES, for which there is no queue (`ReadyProofs.AcceptedPriority`).
- `mini_receive` looks at the lowest bit of each chunk only when it looks for a notification from the requested
  source. `RendezvousProofs.SourceFoundIffLowest` gives the exact condition and `HiddenNotification` an instance.
- The exemption of two processes in `deadlock` is never reached at the places where it is called
  (`KernelTable.Kernel.Deadlock`).
- `write_map` says that it ignores the new block when it frees, but stores it when the direct block is a hole.
  `MapSteps.NewBlockIgnored` says exactly when it is ignored, `MapSteps.PutInHole` what storing it means, and
  `BlockMap.FreeingStores` is an instance. In the same branch it counts the block in `i_blocks`;
  `MapSteps.AccountingKept` says exactly when the count stays right.
- `s_bsearch` is said to have only used blocks below it. `Allocator.BlockAllocator.AllocBlockBit` and `AllocBlock`
  say, from the state before the call, exactly when that stays true, and `BoundLost.BoundIsLost` gives two file systems
  where `alloc_block` without a goal, for an inode that still holds preallocated blocks, ends it.
- `notify_scheduler` panics when its message is refused; `KernelRuns.OutOfQuantumRefused` says exactly when it is.
- `ansi_strcmp` takes a name without characters for equal to every string (`SearchDir.NamelessHit`), so LOOK_UP is
  exact if and only if all entries have names (`SearchDir.LookUpsExact`).
- `double_hashtable` squares the size of the table, although its comment speaks of twice the size.

## Model

| member | source | states |
|---|---|---|
| WaitGraph.AddEdge | Project_2/kernel/proc.c:456-520 | blocking c on d keeps the wait-for graph free of cycles if and only if c is not d and no chain of waiting leads from d to c: the question that the detector answers is the right one |
| WaitGraph.PathIsShort | Project_2/kernel/proc.c:467-483 | without cycles a chain of waiting visits no process twice, so it is no longer than the process table: the array of the detector cannot overflow |
| WaitGraph.ChainEnds | Project_2/kernel/proc.c:474-512 | without cycles every chain of waiting can be followed to a process that waits for no particular process |
| KernelRuns.EveryReachableState | Project_2/kernel/proc.c:105-1437 | from boot on, whatever sequence of calls, schedulings, preemptions and flag changes happens, the wait-for graph has no cycle, p is once in the caller queue of q iff it is blocked sending to q, no rendezvous is missed, and the ready queues are right |
| KernelRuns.RunInv | Project_2/kernel/proc.c:105-1437 | every run that starts in a state of the invariant ends in one |
| KernelRuns.ApplyInv | Project_2/kernel/proc.c:105-1437 | every single event keeps the invariant |
| KernelRuns.WaitingChainsEnd | Project_2/kernel/proc.c:456-520 | in every reachable state the chain of waiting that starts at any process ends, without a repetition, at one that waits for no particular process |
| KernelRuns.DoSyncInv | Project_2/kernel/proc.c:257-375 | every IPC call keeps the whole invariant, SENDREC included, unless its endpoint is the caller's own |
| KernelRuns.SelfReceive | Project_2/kernel/proc.c:622-773 | a receive from the caller's own endpoint leaves the graph without cycles if and only if the endpoint is dead or a notification from itself is taken: otherwise it closes a cycle that nothing refuses |
| KernelRuns.SendRecIsAtomic | Project_2/kernel/proc.c:346-362 | a SENDREC succeeds or fails with its send half: the receive half is never refused afterwards |
| KernelRuns.ReceiveHalfUnlocked | Project_2/kernel/proc.c:753-764 | when the send half has delivered or blocked, the receive half is not taken for a deadlock |
| KernelRuns.OutOfQuantumInv | Project_2/kernel/proc.c:1416-1437 | the message that the kernel sends for a process out of quantum keeps the invariant |
| KernelRuns.ScheduleInv | Project_2/kernel/system.c:641-666 | sched_proc keeps the invariant for every priority that it may be given but NR_SCHED_QUEUES |
| KernelRuns.SwitchInv | Project_2/kernel/proc.c:105-252 | switch_to_user keeps the invariant |
| KernelRuns.BootInv | Project_2/kernel/main.c:53-214 | the state that main leaves satisfies the invariant: every slot is free or holds a process with flags that are not about message passing, and those that can run are queued |
| RendezvousProofs.SendInv | Project_2/kernel/proc.c:525-617 | mini_send, delivering, blocking or refusing, keeps the IPC invariant |
| RendezvousProofs.ReceiveInv | Project_2/kernel/proc.c:622-773 | mini_receive keeps the IPC invariant, as a call of its own and as the second half of a SENDREC that has blocked |
| RendezvousProofs.NotifyInv | Project_2/kernel/proc.c:778-823 | mini_notify keeps the IPC invariant |
| RendezvousProofs.TakeMessageInv | Project_2/kernel/proc.c:709-750 | taking any message out of the caller queue and unblocking its sender keeps the IPC invariant |
| RendezvousProofs.ListeningWaits | Project_2/kernel/proc.c:753-764 | a blocked receive adds an edge for a named source only, and closes a cycle if and only if the source is the receiver or waits for it already |
| RendezvousProofs.AnyTakesLowest | Project_2/kernel/proc.c:657-691 | a receive from ANY takes the lowest pending notification, and takes one whenever there is one |
| RendezvousProofs.SourceFoundIffLowest | Project_2/kernel/proc.c:662-676 | a receive from one source finds its pending notification if and only if that is the lowest pending bit of its chunk |
| RendezvousProofs.HiddenNotification | Project_2/kernel/proc.c:662-676 | a pending notification that a receive from its source does not find |
| ReadyProofs.RtsSetReady | Project_2/kernel/proc.h:181-188 | RTS_SET keeps the ready queues: each holds exactly the runnable processes of its priority, once |
| ReadyProofs.RtsUnsetReady | Project_2/kernel/proc.h:191-199 | RTS_UNSET keeps the ready queues, also when the enqueued process preempts the current one |
| ReadyProofs.SchedReady | Project_2/kernel/system.c:641-666 | sched_proc keeps the ready queues for every priority that it may be given but NR_SCHED_QUEUES |
| ReadyProofs.SwitchReady | Project_2/kernel/proc.c:122-146 | putting a preempted process back and picking the next one keeps the ready queues |
| ReadyProofs.PickIsBest | Project_2/kernel/proc.c:1320-1351 | pick_proc returns no process iff none is runnable, and otherwise a runnable one of the best priority, the one that is first on its queue |
| ReadyProofs.SwitchPicksBest | Project_2/kernel/proc.c:105-252 | switch_to_user leaves a current process that can run on alone; otherwise the new current process is a runnable one of the best priority, first on its queue, or IDLE iff none is runnable |
| ReadyProofs.AcceptedPriority | Project_2/kernel/system.c:641-666 | of the priorities that sched_proc accepts, exactly NR_SCHED_QUEUES names no queue |
| KernelTable.Kernel.Deadlock | Project_2/kernel/proc.c:456-520 | at its call sites the walk ends within the table, and finds a group if and only if the process waited for already waits, directly or not, for the caller; the group size is the number of different processes on the cycle that blocking would close; the exemption for two processes is not reached |
| KernelTable.Kernel.Dequeue | Project_2/kernel/proc.c:1252-1289 | the linked queue becomes the queue without the process, head, tail and links included |
| KernelTable.Kernel.Enqueue | Project_2/kernel/proc.c:1164-1208 | the process is linked at the end of its queue; the current process gets RTS_PREEMPTED, and leaves its queue if it was on one, if and only if it is preemptible and the enqueued process has a strictly smaller priority number; no other flag and no other queue changes |
| KernelTable.Kernel.EnqueueHead | Project_2/kernel/proc.c:1219-1247 | the process is linked at the front of its queue |
| KernelTable.Kernel.RtsSet | Project_2/kernel/proc.h:181-188 | the flag is set and a process that stops being runnable leaves its queue |
| KernelTable.Kernel.RtsUnset | Project_2/kernel/proc.h:191-199 | the flag is cleared and a process that becomes runnable is enqueued |
| KernelTable.Kernel.PickProc | Project_2/kernel/proc.c:1320-1351 | the loop over the queue heads returns the head of the first queue that is not empty: a runnable process of the best priority, the first of its queue |
| KernelTable.Kernel.SchedProc | Project_2/kernel/system.c:641-666 | EINVAL iff the priority is above NR_SCHED_QUEUES or the quantum is not positive, and then nothing changes; otherwise the process has the new priority and quantum, is last on the queue of the new priority if only the end of its quantum had stopped it, and preempts a less urgent current process; for every priority but NR_SCHED_QUEUES |
| KernelTable.Kernel.SwitchToUser | Project_2/kernel/proc.c:105-252 | switch_to_user on the linked queues does what the specification says |
| KernelTable.Kernel.JoinCallers | Project_2/kernel/proc.c:606-610 | the walk to the end of the caller queue links the caller there: the queue gets one element more, at its end |
| KernelTable.Kernel.FindCaller | Project_2/kernel/proc.c:709-750 | the walk over the caller queue stops at the first acceptable sender, in the order of arrival |
| KernelTable.Kernel.LeaveCallers | Project_2/kernel/proc.c:745-746 | unlinking a sender takes exactly it out of the queue |
| KernelTable.Kernel.ScanNotices | Project_2/kernel/proc.c:657-691 | the scan over the chunks of pending bits returns the notification that the specification takes |
| KernelTable.Kernel.MiniSend | Project_2/kernel/proc.c:525-617 | OK with a destination that waits: its inbox holds the sender's message, with the sender as source, flagged for delivery, and it waits no more; OK otherwise: the message is kept for the sender, which is last in the caller queue of the destination; nothing else about messages changes. Any other result changes nothing, and each of EDEADSRCDST, ENOTREADY, ELOCKED and EFAULT comes exactly under its condition |
| KernelTable.Kernel.MiniReceive | Project_2/kernel/proc.c:622-773 | what the receiver gets, in each of five cases: a dead source is refused; a notification it may take is taken first; else the kept message of the first acceptable caller is put into its inbox with that caller as source, and that caller leaves the queue and waits no more; else it waits, or is refused iff waiting would close a cycle; nothing else about messages changes |
| KernelTable.Kernel.MiniNotify | Project_2/kernel/proc.c:778-823 | a process that waits for the notification, and for no reply, gets it and becomes runnable if nothing else stops it; otherwise the bit of the sender is pending and nothing else has changed |
| KernelTable.Kernel.DoSyncIpc | Project_2/kernel/proc.c:257-375 | a refused call changes nothing; SEND, SENDNB, NOTIFY, RECEIVE and SENDREC each do what mini_send, mini_notify and mini_receive are proved to do, SENDNB without blocking, RECEIVE and SENDREC with the mark for an expected reply; the invariant is kept unless the endpoint is the caller's own |
| KernelTable.Kernel.SendRec | Project_2/kernel/proc.c:346-362 | SENDREC is a send and, if that succeeded, a receive from the same process |
| RunqueuesCheck.RunqueuesOk | Project_2/kernel/debug.c:17-110 | the check in the kernel, for tails and priorities within their tables, accepts the queues if and only if they are linked lists that hold each runnable process exactly once, in the queue of its priority, with right tails |
| RunqueuesCheck.AllGoodUnique | Project_2/kernel/debug.c:37-85 | the links determine the queues: no two families of lists fit the same heads and links |
| BlockTree.PathUpdate | Project_2/servers/ext2/write.c:180-258 | replacing what is below one entry of an indirect block, any number of levels down, keeps the tree a tree, changes its blocks by exactly the part replaced, and changes what it maps at that position only |
| BlockTree.Frame | Project_2/servers/ext2/write.c:25-264 | a change outside the blocks of a tree leaves its shape and its blocks alone |
| FileMap.LocateInjective | Project_2/servers/ext2/read.c:294-369 | no two file blocks are at the same place of the direct, single, double and triple regions |
| FileMap.Relink | Project_2/servers/ext2/write.c:25-264 | recording a block on any level of the way to a file block keeps the file free of shared blocks and changes no other mapping |
| FileMap.CreateStep | Project_2/servers/ext2/write.c:93-188 | a new zeroed indirect block on the way to a file block adds exactly that block to the file and changes no mapping |
| BlockMap.Inode.ReadMap | Project_2/servers/ext2/read.c:294-369 | read_map, with its arithmetic of regions and indices, returns what the tree maps: NO_BLOCK for holes and beyond the triple region |
| BlockMap.Inode.WriteMap | Project_2/servers/ext2/write.c:25-264 | write_map fills: the file block is mapped to the new block, every other mapping is as before, what came into the file was free, and i_blocks follows; it frees: the file block is a hole, exactly blocks of its way left the file and are free now, no indirect block left on the way is empty; on a hole among the direct blocks it stores the new block instead; EFBIG changes nothing; ENOSPC comes if and only if alloc_block has found no block during the call, only when the single indirect block of the way was missing and still is, and changes no mapping; the block map is a tree of blocks in use afterwards unless such a stored block was free or in the file |
| BlockMap.Inode.Descend | Project_2/servers/ext2/write.c:80-188 | going down the indirect blocks finds or creates each of them and changes no mapping, also when it runs out of blocks: that is iff an allocation failed, and the single indirect block was and is missing then; with WMAP_FREE it changes nothing |
| BlockMap.Inode.FreeWay | Project_2/servers/ext2/write.c:193-258 | freeing a file block prunes the indirect blocks of its way that have become empty, and no others |
| BlockMap.Inode.EmptyIndir | Project_2/servers/ext2/write.c:288-301 | an indirect block is empty if and only if all its entries are NO_BLOCK |
| BlockMap.Inode.constructor | Project_2/servers/ext2/write.c:25-264 | a new inode maps nothing and has no blocks |
| MapSteps.OtherMappingsKept | Project_2/servers/ext2/write.c:25-264 | a call of write_map that fails, or that is for another file block, leaves a mapping as it was, also when it stores a new block where it was to free a hole |
| MapSteps.AccountingKept | Project_2/servers/ext2/write.c:67-78 | i_blocks stays sectors per block times the blocks of the file if and only if a call that maps is for a hole, and a call that frees is not for a hole among the direct blocks or stores a block there that is new to the file |
| MapSteps.FillThenFree | Project_2/servers/ext2/write.c:25-264 | filling a hole and freeing it again restores the whole map |
| MapSteps.FreedOut | Project_2/servers/ext2/write.c:192-258 | the freed data block goes to the free blocks, and file and free blocks together are the same set as before |
| Truncate.MapInjective | Project_2/servers/ext2/link.c:544-732 | two file blocks are never mapped to the same disk block, so zeroing part of one leaves the bytes of all others alone |
| Truncate.TruncatedBytes | Project_2/servers/ext2/link.c:544-582 | zeroing and freeing together cut the old bytes or extend them with zeros |
| Truncate.HoleBytes | Project_2/servers/ext2/link.c:588-655 | the two halves and the freed blocks between them cover exactly the bytes of the hole |
| Truncate.NextBlock | Project_2/servers/ext2/link.c:661-673 | the next block boundary at or after a position |
| Truncate.RegularFile.ZeroblockRange | Project_2/servers/ext2/link.c:710-732 | exactly the bytes of the range read as zero afterwards; a hole stays one |
| Truncate.RegularFile.ZeroblockHalf | Project_2/servers/ext2/link.c:679-704 | the first or the last half of a block reads as zero, the rest of the file as before |
| Truncate.RegularFile.FreespInode | Project_2/servers/ext2/link.c:588-655 | makes a hole of the range: these bytes are zero, others are kept up to the end of the file, the whole blocks inside are unmapped and free; EINVAL changes nothing |
| Truncate.RegularFile.TruncateInode | Project_2/servers/ext2/link.c:544-582 | afterwards the bytes are the old ones cut or extended with zeros, nothing is mapped past the last partial block, exactly the blocks that left the file are free now, and refused calls change nothing |
| Bitmap.SetBit | Project_2/servers/ext2/utility.c:146-189 | finds the first clear bit from the given chunk on and sets it, or reports that there is none |
| Bitmap.SetByte | Project_2/servers/ext2/utility.c:195-230 | finds the first byte of clear bits that the loop considers and sets it, or reports that there is none |
| Bitmap.UnsetBit | Project_2/servers/ext2/utility.c:236-255 | clears the bit and tells whether it was set |
| BlockAlloc.SuperblockIsSum | Project_2/servers/ext2/balloc.c:235-260 | the free count of the superblock is the sum of those of the groups |
| BlockAlloc.CountTaken | Project_2/servers/ext2/balloc.c:253-261 | taking a clear bit keeps all counts equal to the clear bits |
| BlockAlloc.CountFreed | Project_2/servers/ext2/balloc.c:311-326 | giving back a bit keeps all counts equal to the clear bits |
| BlockAlloc.CountByteTaken | Project_2/servers/ext2/balloc.c:215-237 | preallocating a byte of blocks keeps all counts equal to the clear bits |
| BlockAlloc.OwnersByte | Project_2/servers/ext2/balloc.c:221-230 | the eight blocks of a byte become one client block and seven preallocated ones of the inode |
| BlockAlloc.OwnersLeave | Project_2/servers/ext2/balloc.c:30-66 | a preallocated block that is used or dropped leaves exactly one place of exactly one inode |
| Allocator.HeldOnce | Project_2/servers/ext2/balloc.c:72-142 | no block is preallocated twice, by one inode or by two, and none of a client or of the system is preallocated |
| Allocator.BlockAllocator.FreeBlock | Project_2/servers/ext2/balloc.c:278-331 | the block is free, the counts follow, and s_bsearch is lowered if it has to be |
| Allocator.BlockAllocator.DropPlaces | Project_2/servers/ext2/balloc.c:30-66 | all preallocated blocks of the inode are free now and those of others untouched; s_bsearch is the least of them and of what it was |
| Allocator.BlockAllocator.DiscardAll | Project_2/servers/ext2/balloc.c:30-66 | no inode holds anything any more or preallocates, clients have lost nothing, and s_bsearch is the least of the blocks given back and of what it was |
| Allocator.BlockAllocator.TakeByte | Project_2/servers/ext2/balloc.c:202-239 | gives a block and preallocates the rest of its byte if and only if the group has a free byte |
| Allocator.BlockAllocator.TakeBit | Project_2/servers/ext2/balloc.c:242-268 | gives the first free block of the group from the chunk on; the panic for an empty group is not reached |
| Allocator.BlockAllocator.Search | Project_2/servers/ext2/balloc.c:175-271 | going once around the groups, the first one twice, finds a block if and only if any is free; for an inode that holds nothing, or where nothing is free below the place where it begins, it takes what the first group in the circle offers that offers anything: its first free byte if the inode preallocates and there is one, else its first free bit, from the chunk of the goal on in the first round |
| Allocator.BlockAllocator.AllocBlockBit | Project_2/servers/ext2/balloc.c:152-272 | fails only when no block is free, so its panic is not reached; gives a block that was free or held to one client and takes none from others; for an inode that holds nothing it is the one that is nearest to the goal in the order of the search; where s_bsearch was a lower bound it is one afterwards if and only if the state before the call is not one that Loses describes; a search from s_bsearch that takes no free byte gives the lowest block that was free |
| Allocator.BlockAllocator.UsePreallocated | Project_2/servers/ext2/balloc.c:104-117 | the next preallocated block passes to the client: its place is empty, the count one less, the index one more, and i_bsearch is that block; bitmaps and counts are untouched |
| Allocator.BlockAllocator.AllocBlock | Project_2/servers/ext2/balloc.c:72-142 | fails if and only if the blocks left, after preallocated ones have been taken back when blocks are scarce, are too few; never gives a block that a client has. When blocks are not scarce: with the goal at or just before the next preallocated block it gives that block and changes no bitmap, count or s_bsearch; with another goal the inode loses all that it holds, preallocates no more, and gets the first block that is free then from the goal on; an inode that holds nothing gets what the search takes. When blocks are scarce everything held is given back first. Where s_bsearch was a lower bound it stays one if and only if the call has a goal, or blocks are scarce, or the state is not one that Loses describes; with the goal that write_map passes it always stays one |
| BoundLost.BoundIsLost | Project_2/servers/ext2/balloc.c:72-142 | two file systems in which alloc_block without a goal, for an inode that holds seven preallocated blocks, leaves s_bsearch above a free block, against super.h line 101: one where the search ends in the group of s_bsearch, and one where it ends in a later group |
| GroupPickers.AboveAverage | Project_2/servers/ext2/ialloc.c:254-276 | some group has at least the average of free inodes |
| GroupPickers.InodeGroups.FindGroupDir | Project_2/servers/ext2/ialloc.c:254-276 | a group with a free inode if any has one, else -1: the average never excludes all of them; of the groups that have the average it is the first of those with most free blocks |
| GroupPickers.InodeGroups.FindGroupHashalloc | Project_2/servers/ext2/ialloc.c:284-335 | hashing, doubling steps and the linear pass find a group with a free inode if any has one, else -1; it is the parent's when that has free inodes and blocks, and a group without free blocks only when no group before it, from the parent's on, has a free inode |
| GroupPickers.InodeGroups.FindGroupAny | Project_2/servers/ext2/ialloc.c:341-358 | the first group with a free inode, to which s_igsearch moves, else -1 |
| GroupPickers.InodeGroups.FindGroupTop | Project_2/servers/ext2/ialloc.c:383-416 | the picker for directories at the top finds a group with a free inode if any has one, else -1; if some group has the averages of free inodes and blocks the picked one has them too, with no more directories than any other of them that has fewer than the inodes of a group |
| GroupPickers.InodeGroups.FindGroupNear | Project_2/servers/ext2/ialloc.c:417-442 | the picker for other directories finds a group with a free inode if any has one, else -1; it is the first, from the parent's on, that has half of both averages, and one that has not only if none has |
| GroupPickers.InodeGroups.CountTaken | Project_2/servers/ext2/ialloc.c:123-198 | after an allocation the total is still the sum over the groups, s_igsearch a lower bound, and the directories of the group are one more iff a directory was allocated |
| GroupPickers.InodeGroups.CountFreed | Project_2/servers/ext2/ialloc.c:204-250 | after a free the total is still the sum over the groups, s_igsearch a lower bound, and the directories of the group are one less iff a directory was freed |
| CacheContents.WriteBackSame | Project_2/servers/ext2/cache.c:282-319 | writing a buffer back changes the content of no block |
| CacheContents.ForgetSame | Project_2/servers/ext2/cache.c:148-160 | a clean buffer that gives up its block changes the content of no block |
| CacheContents.FilledSame | Project_2/servers/ext2/cache.c:162-199 | a buffer that is given a block that was not cached changes the content of that block at most, and none if it holds what the disk holds |
| BufferCache.Pool.constructor | Project_2/servers/ext2/cache.c:512-562 | all buffers are on the list of those not in use and in one chain, and every block has the content of the disk |
| BufferCache.Pool.RmLru | Project_2/servers/ext2/cache.c:468-487 | exactly the buffer leaves the doubly linked list |
| BufferCache.Pool.FindBuffer | Project_2/servers/ext2/cache.c:81-104 | the chain of the block number is enough to tell whether the block is cached |
| BufferCache.Pool.Unhash | Project_2/servers/ext2/cache.c:132-146 | the buffer leaves the chain of its old block number, and no other buffer leaves any |
| BufferCache.Pool.GetBlock | Project_2/servers/ext2/cache.c:34-214 | the buffer returned is for the block; unless a transfer fails, no block has changed its content, except the one that is asked for with NO_READ to be overwritten; a miss takes the least recently used buffer; nobody else's buffer in use is touched |
| BufferCache.Pool.PutBlock | Project_2/servers/ext2/cache.c:219-276 | the use count falls by one, the buffer goes to the front or the rear of the list when it reaches zero, and unless a transfer fails no content changes |
| BufferCache.Pool.WriteBlock | Project_2/servers/ext2/cache.c:282-319 | the disk gets the data, and a transfer that fails takes the block from the buffer |
| BufferCache.Pool.FlushAll | Project_2/servers/ext2/cache.c:341-365 | exactly the dirty buffers of the device are queued, each once; unless a transfer fails each of them is transferred by exactly one run, no content changes, and exactly these buffers have become clean |
| BufferCache.Pool.Invalidate | Project_2/servers/ext2/cache.c:324-336 | the blocks of the device have the content of the disk again, those of other devices keep theirs |
| BufferCache.Pool.Modify | Project_2/servers/ext2/write.c:367-375 | a client that changes a buffer and marks it, as zero_block does, changes the content of its block and of no other |
| BufferQueue.Pass | Project_2/servers/ext2/cache.c:393-404 | one pass of the Shell sort permutes the queue, and with gap one leaves it ascending |
| BufferQueue.SortQueue | Project_2/servers/ext2/cache.c:388-404 | the Shell sort, whatever its gaps were, ends with an ascending permutation |
| BufferCache.Pool.RunFrom | Project_2/servers/ext2/cache.c:410-415 | the run is of consecutive blocks, of at most NR_IOREQS, and as long as it can be |
| BufferCache.Pool.WriteRuns | Project_2/servers/ext2/cache.c:409-462 | whatever parts of the transfers succeed the loop ends, the log is one of consecutive runs, and exactly the buffers that were transferred are clean |
| BufferCache.Pool.WriteScattered | Project_2/servers/ext2/cache.c:370-463 | the queue is sorted and written in such runs, and what is transferred is a prefix of it in that order; if every transfer succeeds and no buffer is twice in the queue, each buffer is transferred by exactly one run, and no content changes |
| SearchDir.AnsiStrcmp | Project_2/servers/ext2/utility.c:119-140 | the comparison accepts equal names, and a name without characters for every string |
| DirBlock.EraseMerge | Project_2/servers/ext2/path.c:616-628 | a deleted record merged into the one before it leaves the block tiled and exactly its entry gone |
| DirBlock.EraseFirst | Project_2/servers/ext2/path.c:589-595 | the first record of a block is erased in place: the tiling stays and exactly its entry is gone |
| DirBlock.FillFree | Project_2/servers/ext2/path.c:637-718 | a free record that is filled keeps the tiling and adds exactly the new entry |
| DirBlock.ShrinkFill | Project_2/servers/ext2/path.c:645-718 | a record that gives away its spare space keeps its entry, and the block stays tiled with the new entry after it |
| DirBlock.FreshFill | Project_2/servers/ext2/path.c:682-718 | a new block is one record with the new entry |
| SearchDir.Directory.LookUp | Project_2/servers/ext2/path.c:555-635 | the inode number of the first match, or ENOENT if there is none |
| SearchDir.Directory.IsEmpty | Project_2/servers/ext2/path.c:573-588 | OK if and only if no entry is other than "." and ".." |
| SearchDir.Directory.Delete | Project_2/servers/ext2/path.c:585-635 | exactly the first match is gone, the blocks are tiled, and only the block that i_last_dpos names then has changed; ENOENT changes no block |
| SearchDir.Directory.Enter | Project_2/servers/ext2/path.c:637-727 | exactly one entry more, in a free record, in spare space or in a new block, which is added only if no block that the hints let the search see has room; the blocks are tiled, and only the block that i_last_dpos names then has changed or is new; ENOSPC comes exactly when a new block is needed and cannot be had, and changes no block |
| SearchDir.Directory.Extend | Project_2/servers/ext2/path.c:682-726 | a new block at the end holds the new entry; without a new block ENOSPC and no change |
| SearchDir.EnterThenFind | Project_2/servers/ext2/path.c:490-729 | a name that was not there is found with its inode number after it is entered, and deleting it restores the directory |
| SearchDir.NamedEntries | Project_2/servers/ext2/path.c:573-583 | when all entries have names, LOOK_UP succeeds iff the name is there, and IS_EMPTY iff only "." and ".." are |
| SearchDir.NamelessHit | Project_2/servers/ext2/utility.c:119-140 | an entry without a name answers every look-up |
| Names.CompareNormal | Project_2/servers/hgfs/name.c:18-56 | compare_name accepts two names if and only if normalize_name makes the same of them |
| Names.SlotsApart | Project_2/servers/hgfs/dentry.c:171-194 | names that compare equal, under two different parents, are never in the same slot of the name hash: parent numbers have 8 bits and there are 1023 slots |
| DentryTree.FoundThere | Project_2/servers/hgfs/dentry.c:37-63 | an inode found by name alone in the slot of a parent and a name is a child of that parent |
| DentryTree.LifeCycle | Project_2/servers/hgfs/inode.h:28-39 | what the header promises of the states IN USE, CACHED, DELETED and FREE: who is in the name hash, on the free list, open, and who has children |
| DentryTree.UnionOk | Project_2/servers/hgfs/inode.h:63-67 | the free-list link and the open handle that share one place are never both in use |
| DentryTree.Fragmented | Project_2/servers/hgfs/dentry.c:127-166 | del_dentry leaves every inode of the subtree alone and on the free list iff unreferenced, and the rest of the tree as it was but for the old parent |
| DentryTree.SettledAgain | Project_2/servers/hgfs/dentry.c:127-166 | del_dentry leaves no inode with children but without a parent |
| DentryTree.AddedGood | Project_2/servers/hgfs/dentry.c:68-91 | a new entry keeps tree, hash and free list right |
| DentryTree.GottenGood | Project_2/servers/hgfs/inode.c:105-124 | a new reference takes the inode off the free list iff it was there, and keeps all else right |
| DentryTree.PutGood | Project_2/servers/hgfs/inode.c:129-164 | dropping a reference puts the inode on the free list iff nothing refers to it any more, and keeps all else right |
| DentryTree.DeletedGood | Project_2/servers/hgfs/dentry.c:96-122 | deleting one entry keeps tree, hash and free list right |
| InodeTable.Inodes.constructor | Project_2/servers/hgfs/inode.c:28-63 | at the start the root is in use and the other inodes are free |
| InodeTable.Inodes.FindInode | Project_2/servers/hgfs/inode.c:68-100 | an inode number finds its inode, and an outdated generation none |
| InodeTable.Inodes.GetInode | Project_2/servers/hgfs/inode.c:105-124 | the inode has one reference more and is off the free list; nothing else changes |
| InodeTable.Inodes.PutInode | Project_2/servers/hgfs/inode.c:129-164 | one reference less; with the last one the handle is closed, and an inode without children comes on the free list, at its head when it has been deleted and at its tail when it stays cached; with references left nothing else changes |
| InodeTable.Inodes.DoPutnode | Project_2/servers/hgfs/inode.c:282-301 | exactly the given number of references to the inode goes, with what follows when it was the last, and nothing else changes; or nothing happens |
| InodeTable.Inodes.UnlinkInode | Project_2/servers/hgfs/inode.c:190-211 | the inode leaves its parent, which joins the free list iff nothing refers to it any more |
| InodeTable.Inodes.DelDentry | Project_2/servers/hgfs/dentry.c:127-166 | the loop over children and their children ends, and has taken exactly the subtree out of the tree |
| InodeTable.Inodes.AddDentry | Project_2/servers/hgfs/dentry.c:68-91 | the inode becomes a child of the directory and is in the slot of its name |
| InodeTable.Inodes.LookupDentry | Project_2/servers/hgfs/dentry.c:37-63 | returns a child of the directory with that name, which has exactly one reference more and is off the free list, and none iff there is none; nothing else changes |
| InodeTable.Inodes.GetFreeInode | Project_2/servers/hgfs/inode.c:216-248 | fails iff the free list is empty; the inode returned has left tree and hash, has one reference and a new generation |
| InodeTable.Inodes.NewDentry | Project_2/servers/hgfs/lookup.c:177-186 | a name that is new becomes an entry of the directory whenever an inode is free |
| InodeTable.Inodes.VerifyInode | Project_2/servers/hgfs/verify.c:63-85 | success iff the inode is linked in and the host finds the same kind of file; the subtree is fragmented iff the host says that there is nothing or another kind; after any other failure nothing happens |
| InodeTable.Inodes.GetHandle | Project_2/servers/hgfs/handle.c:18-53 | succeeds iff the inode is open afterwards: it was, or it is linked in, the host finds the same kind of file and opens it |
| InodeTable.Inodes.PutHandle | Project_2/servers/hgfs/handle.c:58-78 | the inode is not open afterwards |
| SlugTable.EmptySlot | Project_3/slugmem.c:108-128 | a table with fewer records than slots has an empty slot, so probing ends |
| SlugTable.PutKeeps | Project_3/slugmem.c:108-128 | filling the first empty slot of a probe sequence keeps every record reachable by probing |
| SlugTable.NotThere | Project_3/slugmem.c:142-154 | an empty slot on the way means that no record of that location is anywhere in the table |
| SlugTable.Table.constructor | Project_3/slugmem.c:365-375 | the table starts empty |
| SlugTable.Table.IsIn | Project_3/slugmem.c:142-154 | ends, and returns a record of the location if and only if one was inserted |
| SlugTable.Table.Insert | Project_3/slugmem.c:108-128 | adds exactly one record, growing first when the load says so |
| SlugTable.Table.Double | Project_3/slugmem.c:77-96 | keeps exactly the records, squares the size, and never grows again meanwhile although the load counts the records a second time |
| KernelTable.Kernel.NotifyScheduler | Project_2/kernel/proc.c:1416-1437 | the process loses its quantum and the kernel sends for it, on the table as in the specification |
| KernelTable.Kernel.Requeue | Project_2/kernel/proc.c:122-146 | a preempted process goes back to the front of its queue if it has time left and to the end otherwise |
| KernelTable.Kernel.HandOver | Project_2/kernel/proc.c:555-575 | a destination that waits gets the sender's message, with the sender as source, into its inbox, waits no more and expects no reply, and becomes runnable if nothing else stops it; nothing else about messages changes |
| KernelTable.Kernel.BlockInSend | Project_2/kernel/proc.c:590-610 | the caller keeps its message, is blocked and is linked at the end of the caller queue |
| KernelTable.Kernel.TakeMessage | Project_2/kernel/proc.c:719-748 | the message of the chosen sender is taken, the sender unblocked and unlinked |
| KernelTable.Kernel.BlockInReceive | Project_2/kernel/proc.c:753-764 | the caller blocks, or is refused exactly when that would close a cycle |
| RunqueuesCheck.CheckQueue | Project_2/kernel/debug.c:37-85 | the part of the check for one queue accepts exactly the right linked lists, and marks exactly their processes |
| BlockMap.Inode.WriteDirect | Project_2/servers/ext2/write.c:68-78 | the three cases of a block in the inode itself |
| BlockMap.Inode.WriteIndirect | Project_2/servers/ext2/write.c:80-260 | the same contract as write_map for a block that is not in the inode itself |
| BlockMap.Inode.CreateBlock | Project_2/servers/ext2/write.c:172-188 | a new indirect block was free, is recorded in the block above and counted; without one, which is iff the allocation failed, nothing changes |
| BlockMap.Inode.Prune | Project_2/servers/ext2/write.c:205-258 | an indirect block is freed if and only if it has become empty |
| Truncate.RegularFile.FreeBlocks | Project_2/servers/ext2/link.c:626-650 | the loop unmaps and frees exactly the blocks of the range |
| Truncate.RegularFile.FreeAcross | Project_2/servers/ext2/link.c:626-650 | a hole that crosses a block boundary: zeroed halves and freed blocks make the whole range read as zero |
| Allocator.BlockAllocator.TryGroup | Project_2/servers/ext2/balloc.c:195-268 | one group is tried, after what the inode holds has been discarded where it is: the result is the first block of the first free byte for an inode that preallocates, or else the first free block from the chunk on, with the bitmap and the inode to match, and no result means that there is none |
| Allocator.BlockAllocator.MakeRoom | Project_2/servers/ext2/balloc.c:85-100 | when blocks are scarce everything preallocated is free again and no inode preallocates, and otherwise nothing has changed |
| Allocator.BlockAllocator.StopPreallocating | Project_2/servers/ext2/balloc.c:118-125 | exactly what the inode holds is free again, and it does not preallocate any more |
| Allocator.BlockAllocator.AllocForGoal | Project_2/servers/ext2/balloc.c:102-142 | the next preallocated block is used if and only if it is the goal or follows it; otherwise preallocation ends, what was held is given back, and the first block free then from the goal on is taken; an inode that holds nothing gets what the search takes; s_bsearch stays a lower bound if and only if there is a goal or the state is not one that Loses describes |
| BufferCache.Pool.Hit | Project_2/servers/ext2/cache.c:91-98 | a cached buffer leaves the list when it was not in use, and is used once more |
| BufferCache.Pool.Miss | Project_2/servers/ext2/cache.c:106-214 | the least recently used buffer leaves list and chain, is written back, renamed, filled and filed; no other block notices |
| BufferCache.Pool.Evict | Project_2/servers/ext2/cache.c:148-160 | a buffer gives up its block without loss |
| BufferCache.Pool.ReadBlock | Project_2/servers/ext2/cache.c:282-319 | the buffer holds what the disk has, or no block if the transfer fails |
| BufferCache.Pool.Rehash | Project_2/servers/ext2/cache.c:162-169 | the buffer is in the chain of its new block number and in no other |
| BufferCache.Pool.Shelve | Project_2/servers/ext2/cache.c:236-262 | the buffer is first or last of the list, whose links are right in both directions |
| BufferQueue.Sink | Project_2/servers/ext2/cache.c:395-403 | one insertion of the sort: with gap one the ascending part grows by an element |
| SearchDir.FindInBlock | Project_2/servers/ext2/path.c:566-664 | the walk over the records finds the first match of a block and the record before it |
| SearchDir.FindRoom | Project_2/servers/ext2/path.c:637-664 | the walk finds a record with room exactly when the block has one |
| SearchDir.Directory.FindSlot | Project_2/servers/ext2/path.c:544-669 | the search begins where the hints say, and finds a record with room exactly when a block from there on has one |
| SearchDir.Directory.EraseEntry | Project_2/servers/ext2/path.c:585-635 | the record found is erased or merged, and exactly the first match leaves the directory |
| SearchDir.Directory.EnterAt | Project_2/servers/ext2/path.c:637-718 | the record found is filled or split, and exactly one entry is added |
| InodeTable.Inodes.LinkInode | Project_2/servers/hgfs/inode.c:169-185 | the inode is the first child of its parent, and the parent leaves the free list exactly if nothing referred to it before |
| InodeTable.Inodes.DelOneDentry | Project_2/servers/hgfs/dentry.c:96-122 | one inode leaves tree, hash and, as the case may be, joins the free list |
| SlugTable.Table.Reinsert | Project_3/slugmem.c:87-92 | the loop inserts exactly the records of the old table, counts each of them once more, and finds the new table large enough every time |
| SlugTable.Table.Probe | Project_3/slugmem.c:108-128 | the loop ends at the first empty slot from the home slot on |
| MapSteps.NewBlockIgnored | Project_2/servers/ext2/write.c:29-31 | a call that frees does with the new block what it does with NO_BLOCK if and only if the file block is not a hole among the direct blocks or the new block is NO_BLOCK, against the comment of write_map |
| MapSteps.PutInHole | Project_2/servers/ext2/write.c:68-76 | storing a block where a hole among the direct blocks was to be freed adds it to the file and maps it, and the block map is still a tree of blocks in use if and only if the block is NO_BLOCK or was neither free nor in the file |
| BlockMap.FreeingStores | Project_2/servers/ext2/write.c:68-76 | an empty file whose first block is freed with a new block maps that block afterwards |
| KernelRuns.OutOfQuantumRefused | Project_2/kernel/proc.c:1416-1437 | the send that notify_scheduler must not see refused is refused if and only if the scheduler's endpoint is gone, or it does not wait for the process and already waits, directly or not, for it |
| KernelRuns.AdmitBooting | Project_2/kernel/main.c:202-214 | letting one more process of the boot image in goes on with the boot, and leaves it with exactly the flags of the image |
| KernelTable.Kernel.constructor | Project_2/kernel/main.c:53-62 | the cleared process table is consistent, and every slot is free |
| KernelTable.Kernel.Admit | Project_2/kernel/main.c:202-214 | main sets flags of a process, frees it from RTS_SLOT_FREE, which leaves it with exactly those flags, and schedules it if it can run |
| KernelTable.Kernel.BootImage | Project_2/kernel/main.c:72-214 | the loop of main over the boot image leaves a state from which the runs of KernelRuns begin, with exactly the processes of the image |
| KernelTable.Kernel.Refuse | Project_2/kernel/proc.c:257-344 | the tests of do_sync_ipc give the result that the specification gives, in the same order |
| BufferCache.SentIs | Project_2/servers/ext2/cache.c:409-462 | the runs of a log, one after the other, are the part of the sorted queue that was transferred |
| BufferCache.AllSent | Project_2/servers/ext2/cache.c:409-462 | when the whole queue has been transferred and no buffer is in it twice, exactly one run transferred each buffer |
| Allocator.BlockAllocator.Round | Project_2/servers/ext2/balloc.c:195-268 | when nothing below the chunk is free a block is found, and the bound s_bsearch is lost if and only if a block of the inode from below the chunk was discarded and only a bit is found |
| SearchDir.LookUpsExact | Project_2/servers/ext2/path.c:573-583 | LOOK_UP finds only names that are there if and only if all entries have names |
| Delivery.ReceivedAsSent | Project_2/kernel/proc.c:525-773 | from boot on, in every run and between any two processes: the messages that the receiver has got are exactly those of the sender's accepted calls, and of the kernel for it, each once and in order, except that the last may still be kept for the blocked sender |
| Delivery.RunBalanced | Project_2/kernel/proc.c:525-773 | the same from any state of the invariant: what was in flight and what is sent is what is received and what is in flight at the end |
| Delivery.StepAccounted | Project_2/kernel/proc.c:257-823 | every event accounts for the messages and notifications between any two processes: nothing is lost, doubled or invented, and no message that waits to be copied to its receiver is overwritten |
| Delivery.KeptUntilDelivered | Project_2/kernel/proc.c:152-164 | a received message stays in the inbox unchanged, whatever happens, until it has been copied to the receiver |
| Delivery.RunNotices | Project_2/kernel/proc.c:657-691 | over every run, a notification was pending or has been made if and only if it is pending or has been received |
| Delivery.SendRecWaits | Project_2/kernel/proc.c:346-362 | a SENDREC that is answered OK leaves the caller waiting for the reply of its destination and for nothing before it, with its message handed over or kept at the end of the destination's queue |
| Delivery.BothHalves | Project_2/kernel/proc.c:346-362 | the two halves of a SENDREC together: the message is sent, and the caller waits for its destination |
| Urgency.NothingMoreUrgent | Project_2/kernel/proc.c:1201-1203 | in every run from boot on, from any switch to a new process on and through all later ones: while a preemptible process runs no runnable process has a smaller priority number, as long as the current process is neither given a less urgent priority past a waiting process nor its preemption taken back past one |
| Urgency.UrgencyStep | Project_2/kernel/proc.c:1164-1208 | of all events exactly these two kinds, and exactly when a more urgent process is waiting, leave a preemptible current process that is not the most urgent |
| Urgency.UrgencyRun | Project_2/kernel/proc.c:1164-1208 | the same over every run of the other events |
| Urgency.SwitchUrgent | Project_2/kernel/proc.c:105-252 | after a switch to a new process nothing runnable is more urgent |
| Effects.EnqueueEffect | Project_2/kernel/proc.c:1164-1208 | enqueue over flags and queues: RTS_PREEMPTED is newly set for a process iff it is current, preemptible and of a strictly larger priority number, whether or not it can run; no other flag of anyone changes; the process is last on its queue |
| Effects.RtsUnsetEffect | Project_2/kernel/proc.h:191-199 | RTS_UNSET over flags and queues: that flag goes, a process whose only flag it was is last on its queue, and preempts under the condition of enqueue; no other flag and no other queue changes |
| Effects.RtsSetEffect | Project_2/kernel/proc.h:181-188 | RTS_SET over flags and queues: that flag comes, a process that was runnable leaves its queue, and nothing else changes |
| Effects.RequeueEffect | Project_2/kernel/proc.c:122-146 | only RTS_PREEMPTED of the current process goes; if that was its only flag it is first on its queue when it has time left and last when it has none |
| Effects.SwitchEffect | Project_2/kernel/proc.c:105-252 | switch_to_user puts a preempted process back before it picks, and changes nothing else but the current process |
| Effects.SchedEffect | Project_2/kernel/system.c:641-666 | EINVAL exactly for a priority above NR_SCHED_QUEUES or a quantum that is not positive, without effect; otherwise new priority, new quantum, NoQuantum cleared, last on the new queue, and preemption of a less urgent current process; nothing else |
| MessageEffects.SendEffect | Project_2/kernel/proc.c:525-617 | a send answered OK puts the sender's message with the sender as source into the inbox of a destination that waits, or keeps it with the sender last in the queue; each other result has exactly one cause and no effect |
| MessageEffects.ReceiveEffect | Project_2/kernel/proc.c:622-773 | what a receive leaves in each of its five cases, on the states before and after |
| MessageEffects.ReceiveMessage | Project_2/kernel/proc.c:709-750 | a receive without a notification to take puts the message of the first acceptable caller, in order of arrival, into the inbox |
| MessageEffects.ReceiveNotice | Project_2/kernel/proc.c:657-691 | a receive takes a notification it may take before any message |
| MessageEffects.ReceiveWaits | Project_2/kernel/proc.c:753-764 | a receive waits only when there is nothing to take or its caller still sends, and is refused exactly when waiting would close a cycle |
| MessageEffects.NoticeIs | Project_2/kernel/proc.c:657-691 | the notification that the scan finds: for ANY the lowest; for one source that source's, iff no lower one of the same chunk is pending |
| MessageEffects.NotifyEffect | Project_2/kernel/proc.c:778-823 | a notification is delivered to a process that waits for it and for no reply, and is pending otherwise; nothing else changes |
| MessageEffects.OutOfQuantumEffect | Project_2/kernel/proc.c:1416-1437 | a process out of quantum is stopped for that in any case; when the message to its scheduler is accepted the scheduler has it or it is last in the scheduler's queue |
| MessageEffects.DoSyncEffect | Project_2/kernel/proc.c:257-375 | every call does what its kind of call is proved to do, and a refused one does nothing |
| MessageEffects.RefusalCauses | Project_2/kernel/proc.c:257-344 | the exact conditions under which do_sync_ipc performs a call, and the cause of each code with which it refuses one |
| BlockMap.WayWhole | Project_2/servers/ext2/write.c:80-188 | a single indirect block is there only if the blocks above it are, and without it the position is a hole |
| Allocator.NearestDecides | Project_2/servers/ext2/balloc.c:175-271 | a search that begins where nothing below is free finds its block in the first group that has one, the lowest free block unless it is the first of a free byte; s_bsearch stays a lower bound except in the one case described by LosesFrom |
| Allocator.RoundDecides | Project_2/servers/ext2/balloc.c:195-268 | the same for one round, on the states before and after |
| Allocator.NearestIsFirst | Project_2/servers/ext2/balloc.c:175-271 | for an inode that does not preallocate the groups, chunks and bits that the search goes through come to the first free bit, in a circle, from the chunk of the goal on |
| Allocator.BlockAllocator.AllocElsewhere | Project_2/servers/ext2/balloc.c:118-138 | for a goal away from the preallocated blocks the inode ends with nothing held and preallocation off, and gets the first block that is free after that from the goal on |
| Allocator.BlockAllocator.RoundIfOpen | Project_2/servers/ext2/balloc.c:185-195 | a group without free blocks is passed over; in any other one round is made |
| Allocator.BlockAllocator.Visit | Project_2/servers/ext2/balloc.c:175-271 | one pass of the loop: what has been passed is in use, and a block that is taken is the nearest to the goal in the order of the search |
| Allocator.LoweredIsLeast | Project_2/servers/ext2/balloc.c:327-328 | after blocks have been freed s_bsearch is the least of them and of what it was |
| DentryTree.GetThenPut | Project_2/servers/hgfs/inode.c:105-164 | a get followed by a put restores references, handles, tree and hash, and the set of free inodes |
| DentryTree.ReferencesBalance | Project_2/servers/hgfs/inode.c:105-164 | over every sequence of operations, the references of an inode are those it had and was given less those that were taken back |
| DentryTree.FreeWhenAllBack | Project_2/servers/hgfs/inode.c:129-164 | an inode that had none is on the free list exactly when all references that were given have been taken back and it has no children |

## Left out

Deliberately weaker or narrower contracts:

- KernelRuns.EveryReachableState: covers neither receives from the caller's own endpoint nor the priority NR_SCHED_QUEUES, which break the invariant as the lemmas above say, nor creation, exit and live update of processes, of which `clear_ipc_refs` unblocks senders without unlinking them.
- KernelTable.Kernel.SchedProc: requires that the priority is not NR_SCHED_QUEUES, which names no queue.
- KernelTable.Kernel.Deadlock: requires what its two call sites guarantee, instead of a third return value for the exempted pair.
- BlockMap.Inode.WriteMap: requires of a call that maps that the new block is in use and not in the file, which is what new_block passes; which free block is allocated for the way, and whether one is found, is an arbitrary choice here and is what the allocator model is about.
- MapSteps.AccountingKept: the mapping is that of the file blocks; ENOSPC may leave new, empty indirect blocks in the file, which stay counted.
- Truncate.RegularFile.TruncateInode: requires that nothing is mapped past the end of the file, and keeps it so; it does not discard preallocated blocks, which are not part of the file.
- Allocator.BlockAllocator.FreeBlock: requires a block of the file system that is in use, since anything else is a panic.
- Allocator.BlockAllocator.AllocBlock: for a call without a goal while the inode still holds blocks and blocks are not scarce, the case that BoundLost.BoundIsLost is about, it says that a block is given to one client and what becomes of s_bsearch, but not which block.
- BufferCache.Pool.GetBlock: requires a buffer that is not in use unless the block is cached, since the code panics otherwise; after a failed transfer nothing is said about contents, because the code drops the data.
- BufferCache.Pool.PutBlock: requires that a block got with NO_READ has been overwritten.
- BufferCache.Pool.WriteScattered: the writing half of `rw_scattered`; reading, and read-ahead that uses it, are not modelled.
- InodeTable.Inodes.AddDentry: requires a referenced directory as parent and an inode with no entry and no children, which is what its callers have.
- InodeTable.Inodes.NewDentry: requires a parent that `verify_inode` has found linked in, and a reference to the root.
- SlugTable.Table.IsIn: where an address was recorded twice, which of its records is returned is not said.

Not part of the models:

- Kernel: generation numbers in endpoints, the IPC status register, `senda` and pending asynchronous messages, non-blocking receives (no caller asks for one), signals, tracing, cycle accounting, conversion of quantum units, and processes that share a privilege structure; a process's flags other than those of IPC are set and cleared by arbitrary events.
- ext2 in general: byte order on disk, permission checks, timestamps, `i_dirt`, read-only file systems, mounting, and panics other than those shown to be unreachable.
- Block map: entries of indirect blocks and bytes of data blocks are kept in two maps, not in one disk; the buffers in which they are changed are the business of the cache model.
- Allocators: the bitmaps of all groups are one array of bits; get and put of bitmap buffers are left out, and with them the path of `alloc_block_bit` that does not put its buffer back.
- Group pickers: an inode bitmap is its number of free inodes; setting the bit would only repeat the block bitmaps.
- Cache: the second-level cache of the VM server, allocation of buffer memory, and changes of the block size.
- Directories: the size of a directory is kept as its number of blocks, the block map is taken as a list of blocks, and the code for the file type is a parameter.
- hgfs: queues and lists of the BSD macros are sequences, reference counts do not wrap around, names are strings without a terminating zero, and answers of the host are parameters; rename, link and readdir as whole operations only combine the operations here.
- slugmem: the width of `size_t`, failing allocations, the active flag, printing, statistics and exit handling.
- Boot monitor, installers, drivers, grants, data store, shells and the scanner: device or library plumbing, or members that would only be easier.
