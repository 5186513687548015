# Proofs about the uCore kernel structures

This project models the data structures and protocols at the heart of the uCore port under `sw/ucore/kern` and proves what they
are meant to guarantee. Each part stands on its own state; there is no one big kernel.

- **Red-black tree** (`RbShape`, `RbHeap`, `RbInsert`, `RbDelete`, `RbSplice`, `RbHeight`, `RbNeighbours`, `RbTree`): linked nodes
  with a shared `nil` and a sentinel above the root, rotations with the two directions as a parameter, insertion, deletion with the
  copied record, search and neighbours. A tree is seen from a place in it: the subtree there, and what surrounds it. Rotations and
  recolourings are proved on a value (`Store`) that holds the fields of all nodes; the methods write the same fields in memory.
- **Semaphores, monitor, philosophers** (`Semaphore`, `SemQueue`, `PhilSem`, `PhilMon`): semaphores and wait queues as classes
  that update process states, and both philosopher programs as state machines over any interleaving of their steps. A step is one
  semaphore operation with the check that chooses it, or one read or write of shared state inside the critical section; a test of a philosopher, which reads three
  flags there and may write one, is one step.
- **Simple file system** (`Bitmap`, `SfsState`, `SfsBlocks`, `SfsFile`): the word-packed free map, block maps with direct and indirect
  entries stored as bytes on the disk, reading, writing and truncating. A ghost map from each block to its one owner gives that no
  block is shared, lost or both free and used.
- **Pages and slabs** (`FirstFit`, `SlabShape`, `SlabInit`, `SlabState`, `Slabs`): the coalescing free list, and the slab caches over
  it with control blocks that are themselves objects of other caches.
- **Stride scheduler** (`SkewTree`, `SkewHeap`, `Stride`): the skew heap with its in-place pointers and its amortised cost, the wrapped
  comparison, and the run queue whose picked process changes its key while it is still in the heap.
- **Processes and timers** (`Pids`, `Timers`, `Family`, `ProcTable`): pid allocation with the cached interval, the delta list, the
  forest of parent and sibling links, and fork, exit, wait, kill, sleep and wakeup over all of them.
- **Address spaces** (`PageState`, `PageTables`, `Vmas`): two-level tables with reference counts as a finite map, and memory areas with
  the lookup cache.
- **Numbers** (`Divide`, `Numerals`, `Powers`): division by shifts, `printnum` over it, and powers of two for the bounds.

A class has a `Valid()` that the operations of the kernel keep, and each method says what the new state is in terms of the old one,
so what `Valid()` says holds after every sequence of such calls. Helpers that do a part of an operation (`RequeueCurrent`, `MoveOne`
and `Die` of `ProcTable.Kernel`, for example) say which part holds between them. Two operations keep it under a condition or up to
a later call: `FirstFit.PageAllocator.InitMemmap` exactly under the condition it states, and `Stride.RunQueue.PickNext` leaves the
picked process at the root of the heap with a raised stride until it is dequeued.

## Where the code falls short of what it promises

- `sfs_io_nolock` sets the size to `offset + alen` even if `alen` is zero: a write that starts inside a block that does not exist, on a
  full disk, makes the file larger than its blocks. `SfsFile.WriteKeepsRounded` gives the exact condition, `SfsFile.RoundingCanFail` a disk
  and a write for which it happens. A later read of such a file makes the missing blocks, or stops short (`SfsFile.Read`).
- `mm_map` adds address and length in 32 bits: a request whose end does not fit is accepted if the rest of the sum lies inside the page of its
  address, and then gets that one page. `Vmas.CoversExactly` says that an accepted area holds the whole request if and only if the end fits,
  `Vmas.ShorterThanAsked` gives a request.
- `sfs_truncfile` keeps the blocks it has made when it runs out of them, while the size stays: `SfsFile.FailedStretchKeepsRounded`
  says exactly when `blocks` is still the size rounded up, `SfsFile.StretchCanFail` gives a disk and a length for which it is not.

## Conditions that callers meet

- `proc_stride_comp_f` compares two stored strides rightly, in both orders, exactly if they are equal or the rest of their distance modulo
  2^32 is between 1 and BIG_STRIDE (`SkewHeap.ComparesRightlyExactly`); for strides less than 2^32 apart that is the window of BIG_STRIDE
  (`SkewHeap.WindowIsExact`), and just outside it each of the two counts as the smaller one (`SkewHeap.JustOutside`). The scheduler keeps
  its processes inside the window (`Stride.RunQueue.Turns`).
- Everybody gets turns as long as no priority exceeds BIG_STRIDE (`Stride.NobodyStarves`, `Stride.RunQueue.Turns`). A larger one makes the
  pass zero (`Stride.PassIs`), and such a process can keep the processor (`Stride.LargerStarves`). No code under `kern`
  sets a priority.
- `default_init_memmap` appends its block without looking: the list stays sorted and coalesced exactly when the new pages lie above all
  free ones and touch none (`FirstFit.AppendLists`). The kernel calls it once, on an empty list.
- The comment of `printnum` promises bases 1 to 16, but the function divides by 16 for every base other than 8 and 10: two in base two would
  come out as `02` (`Numerals.WrongInBaseTwo`). `Numerals.RightExactly` says for which numbers and bases the output is right. The function
  is static, and its one caller, `vprintfmt`, passes 10 and 16 only (`libs/printfmt.c` lines 242-265), for which it always is.

## Assumptions

- `alloc_proc` never sets `lab6_stride` and `lab6_priority`. The results about strides start from strides inside the window, for a fixed
  set of runnable processes.
- Files have at most 12 + 1024 blocks; beyond that `sfs_bmap_get_nolock` reads an unset number.
- The ramdisk does not fail. Running out of blocks, pages, page-table frames, pids and memory does happen and is modelled.
- A comparison function is a total preorder, given by integer keys.

## Model

| member | source | states |
|---|---|---|
| RbTree.Tree.constructor | sw/ucore/kern/libs/rb_tree.c:28-64 | a new tree keeps all rules and is empty |
| RbTree.Tree.Insert | sw/ucore/kern/libs/rb_tree.c:112-171 | from any well-formed tree: search order, no red node with a red child, equal black heights, correct links in both directions, black `nil` and root are kept, and the order of nodes is the old one with the new node behind all keys up to its own, duplicates included |
| RbTree.Tree.Delete | sw/ucore/kern/libs/rb_tree.c:294-327 | from any well-formed tree and any node in it: all rules are kept, and the order of the other nodes is unchanged |
| RbTree.Tree.Search | sw/ucore/kern/libs/rb_tree.c:231-239 | a node is found exactly when one with the key exists, and the number s of steps satisfies 2^s <= (n+1)^2 for n nodes |
| RbTree.Tree.Next | sw/ucore/kern/libs/rb_tree.c:351-355 | the result is the next node in order, none exactly for the last |
| RbTree.Tree.Prev | sw/ucore/kern/libs/rb_tree.c:341-345 | the result is the node before in order, none exactly for the first |
| RbNeighbours.Successor | sw/ucore/kern/libs/rb_tree.c:178-198 | the node behind a node in the whole order is found below it or above it; `nil` at the end |
| RbNeighbours.Predecessor | sw/ucore/kern/libs/rb_tree.c:204-224 | the node in front of a node in the whole order; `nil` at the beginning |
| RbNeighbours.ClimbRight | sw/ucore/kern/libs/rb_tree.c:188-197 | the climb ends at the first node after all of the subtree, or at the sentinel |
| RbNeighbours.ClimbLeft | sw/ucore/kern/libs/rb_tree.c:213-223 | the climb ends at the last node before all of the subtree, or at the sentinel |
| RbSearch.HeightBound | sw/ucore/kern/libs/rb_tree.c:378-404 | a tree that passes the rules has height h with 2^h <= (n+1)^2 |
| RbSearch.Search | sw/ucore/kern/libs/rb_tree.c:231-239 | the node found lies above all other nodes with the key: none of them is outside its subtree |
| RbHeap.Rotate | sw/ucore/kern/libs/rb_tree.c:78-100 | the six writes, as one new value of all fields |
| RbHeap.RotateFocus | sw/ucore/kern/libs/rb_tree.c:78-100 | the six writes of a rotation turn memory that holds a tree into memory that holds the rotated tree in the same place, either direction |
| RbHeap.RotatedInOrder | sw/ucore/kern/libs/rb_tree.c:78-100 | a rotation does not change the order of the nodes |
| RbInsertSteps.FindPlace | sw/ucore/kern/libs/rb_tree.c:112-129 | the way down ends at the place behind all keys up to the new one |
| RbInsertSteps.InsertTurn | sw/ucore/kern/libs/rb_tree.c:139-157 | one turn keeps every rule but the one between the red node and its parent, and moves up if that is still broken, so the loop ends |
| RbInsertSteps.InsertLoop | sw/ucore/kern/libs/rb_tree.c:139-169 | after the loop no red node has a red parent, and the order is the old one |
| RbInsertSteps.RecolorKeeps | sw/ucore/kern/libs/rb_tree.c:141-147 | recolouring for a red uncle keeps all rules below the grandparent |
| RbInsertSteps.RaiseKeeps | sw/ucore/kern/libs/rb_tree.c:153-155 | the last rotation leaves a part that keeps all rules, with the black height it had |
| RbInsertSteps.OuterKeeps | sw/ucore/kern/libs/rb_tree.c:149-152 | the first rotation changes neither the order nor what is broken |
| RbDeleteSteps.DeleteFixup | sw/ucore/kern/libs/rb_tree.c:245-288 | the loop ends although it compares with the child of the sentinel read before the rotations, and the missing black node is restored everywhere |
| RbDeleteSteps.DeleteTurn | sw/ucore/kern/libs/rb_tree.c:249-284 | one turn ends at the node captured as root, which is black, with the tree settled; or the missing black node is higher up, or its place is red; the captured node is still the top then, or the place itself |
| RbDeleteSteps.RootBlack | sw/ucore/kern/libs/rb_tree.c:247-284 | the topmost node around a place is black and not `nil`, whichever node hangs at the place |
| RbDeleteSteps.RedSiblingKeeps | sw/ucore/kern/libs/rb_tree.c:252-257 | a red sibling is rotated away without changing what is missing |
| RbDeleteSteps.LiftKeeps | sw/ucore/kern/libs/rb_tree.c:258-261 | painting the sibling red moves the missing black node up by one |
| RbDeleteSteps.NearKeeps | sw/ucore/kern/libs/rb_tree.c:263-268 | a red near nephew is rotated to the outside |
| RbDeleteSteps.SupplyKeeps | sw/ucore/kern/libs/rb_tree.c:269-273 | the last rotation supplies the missing black node: all rules hold again |
| RbSplice.SpliceOut | sw/ucore/kern/libs/rb_tree.c:299-310 | a node with at most one child is taken out, and the child knows its new parent even if it is `nil` |
| RbSplice.TakePlace | sw/ucore/kern/libs/rb_tree.c:314-323 | the copied record takes the place of the deleted node with all six neighbouring links |
| RbSplice.TakeFocus | sw/ucore/kern/libs/rb_tree.c:314-323 | after the copy memory holds the same tree with one node exchanged |
| RbSplice.DeleteFrom | sw/ucore/kern/libs/rb_tree.c:294-327 | the store loses exactly the deleted node |
| Semaphore.UpDown | sw/ucore/kern/sync/sem.c:16-54 | a positive value never coexists with waiters, and the queue gains or loses exactly the process concerned |
| Semaphore.FirstComeFirstWoken | sw/ucore/kern/sync/sem.c:16-54 | over every run of ups and downs those woken, followed by those who still wait, are those who waited at the start followed by those who had to wait since, each in its order; and permits are conserved |
| Semaphore.NobodyOvertakes | sw/ucore/kern/sync/sem.c:16-54 | of two waiting processes the one that came first is woken first, over every run |
| WaitQueues.KernelSem.Up | sw/ucore/kern/sync/sem.c:16-30 | the first entry of the queue leaves, its process runs with the flags `__down` asks for, and the value stays; with no waiter the value grows by one |
| WaitQueues.KernelSem.DownBegin | sw/ucore/kern/sync/sem.c:32-42 | a permit is taken exactly when there is one; otherwise the value stays zero and the process sleeps in a new entry at the end of the queue |
| WaitQueues.KernelSem.DownEnd | sw/ucore/kern/sync/sem.c:44-54 | the result is zero for a process that was handed a permit; an entry that is still queued leaves, and the others stay in their order |
| WaitQueues.KernelSem.TryDown | sw/ucore/kern/sync/sem.c:67-76 | takes a permit exactly when there is one, and never waits |
| WaitQueues.WaitQueue.SetCurrent | sw/ucore/kern/sync/wait.c:114-121 | the process goes to sleep at the end of the queue |
| WaitQueues.WaitQueue.Del | sw/ucore/kern/sync/wait.c:26-30 | exactly that entry leaves the queue, and the others stay in their order |
| WaitQueues.WaitQueue.WakeupFirst | sw/ucore/kern/sync/wait.c:80-95 | the first entry leaves and its process runs; the other entries are untouched |
| WaitQueues.WaitQueue.WakeupAll | sw/ucore/kern/sync/wait.c:97-112 | every process of the queue is woken once |
| PhilosophersSem.PhilosophersAreSafeAndFinish | sw/ucore/kern/sync/check_sync.c:86-132 | in every run: neighbours never eat together, who has its forks is EATING, a HUNGRY philosopher has an EATING neighbour whenever `mutex` is free, the run is bounded, and a run that cannot go on has served everybody four times |
| PhilosophersSem.StepInv | sw/ucore/kern/sync/check_sync.c:86-112 | every step of every philosopher keeps the invariant |
| PhilosophersSem.NoDeadlock | sw/ucore/kern/sync/check_sync.c:86-132 | if nobody can step, all have finished |
| PhilosophersSem.MeasureDecreases | sw/ucore/kern/sync/check_sync.c:114-132 | every step uses up a bounded measure |
| PhilosophersSem.EveryRun | sw/ucore/kern/sync/check_sync.c:86-132 | the invariant holds after every schedule |
| PhilosophersMonitor.MonitorIsSafeAndFinishes | sw/ucore/kern/sync/monitor.c:27-76 | in every run: the one baton is in exactly one place, `next_count` and every `count` are the real numbers of suspended processes, who returns from `phi_take_forks_condvar` is EATING with no EATING neighbour although `cond_wait` is called under an `if`, nobody HUNGRY is forgotten, and every run ends with everybody served |
| PhilosophersMonitor.StepInv | sw/ucore/kern/sync/monitor.c:27-76 | every step keeps the invariant |
| PhilosophersMonitor.StepBaton | sw/ucore/kern/sync/monitor.c:27-76 | every semaphore operation moves the baton from one place to one place |
| PhilosophersMonitor.StepChain | sw/ucore/kern/sync/monitor.c:27-49 | a suspended signaller waits only for the process it has woken, and gets the baton back from it |
| PhilosophersMonitor.OneBaton | sw/ucore/kern/sync/monitor.c:9-76 | permits of `mutex`, `next` and all conditions plus running processes are one in all |
| PhilosophersMonitor.NextCountIsExact | sw/ucore/kern/sync/monitor.c:27-49 | `next_count` is the number of suspended signallers |
| PhilosophersMonitor.NoDeadlock | sw/ucore/kern/sync/check_sync.c:172-245 | if nobody can step, all have finished |
| PhilosophersMonitor.MeasureDecreases | sw/ucore/kern/sync/check_sync.c:227-245 | every step uses up a bounded measure |
| PhilosophersMonitor.EveryRun | sw/ucore/kern/sync/check_sync.c:172-245 | the invariant holds after every schedule |
| Bitmaps.Bitmap.constructor | sw/ucore/kern/fs/sfs/bitmap.c:18-50 | exactly the first `nbits` blocks are free |
| Bitmaps.Bitmap.Alloc | sw/ucore/kern/fs/sfs/bitmap.c:52-70 | the lowest free block is taken, failure exactly when none is free, no other bit changes |
| Bitmaps.Bitmap.Test | sw/ucore/kern/fs/sfs/bitmap.c:72-85 | tells whether the block is in the set |
| Bitmaps.Bitmap.Release | sw/ucore/kern/fs/sfs/bitmap.c:87-93 | the set gains exactly this block |
| Bitmaps.OneBitChanges | sw/ucore/kern/fs/sfs/bitmap.c:72-78 | writing one bit of one word changes one member of the set |
| SfsState.RoundTrip | sw/ucore/kern/fs/sfs/sfs_io.c:43-70 | a block number written as four bytes is read back |
| SfsState.EntrySet | sw/ucore/kern/fs/sfs/sfs_io.c:57-70 | writing one entry of an indirect block leaves the other 1023 as they were |
| SfsState.GrownKeepsInv | sw/ucore/kern/fs/sfs/sfs_inode.c:153-238 | growing any file by a block, with or without a new indirect block, keeps every block owned by exactly one user or free, and map entries beyond `blocks` zero |
| SfsState.ShrunkKeepsInv | sw/ucore/kern/fs/sfs/sfs_inode.c:241-284 | freeing the last block keeps the same |
| SfsState.DataWriteKeepsInv | sw/ucore/kern/fs/sfs/sfs_io.c:57-70 | writing a data block keeps all maps of all files |
| SfsState.GrownAt | sw/ucore/kern/fs/sfs/sfs_inode.c:153-238 | growing one file changes one entry of one map |
| SfsBlocks.Sfs.Rbuf | sw/ucore/kern/fs/sfs/sfs_io.c:43-55 | the bytes read are those on the disk |
| SfsBlocks.Sfs.Wbuf | sw/ucore/kern/fs/sfs/sfs_io.c:57-70 | exactly the given bytes of one block change |
| SfsBlocks.Sfs.BlockAlloc | sw/ucore/kern/fs/sfs/sfs_inode.c:65-75 | the lowest free block is taken and cleared and the counter follows; failure, exactly when none is free, changes nothing |
| SfsBlocks.Sfs.BlockFree | sw/ucore/kern/fs/sfs/sfs_inode.c:77-82 | exactly this block is free again and the counter follows |
| SfsBlocks.Sfs.NewIndirect | sw/ucore/kern/fs/sfs/sfs_inode.c:153-195 | an allocation that fails halfway gives its first block back: the free map is what it was |
| SfsBlocks.Sfs.BmapGet | sw/ucore/kern/fs/sfs/sfs_inode.c:197-238 | finds the block of an index, or makes it; failure exactly when one or two free blocks are missing |
| SfsBlocks.Sfs.BmapLoad | sw/ucore/kern/fs/sfs/sfs_inode.c:286-304 | a block of the file, or a new zero block at its end; other files keep all their blocks and bytes |
| SfsBlocks.Sfs.FreeSub | sw/ucore/kern/fs/sfs/sfs_inode.c:240-256 | an entry that is set is cleared and its block freed; one that is not stays |
| SfsBlocks.Sfs.BmapTruncate | sw/ucore/kern/fs/sfs/sfs_inode.c:306-317 | exactly the last block of the file is freed |
| SfsFile.Write | sw/ucore/kern/fs/sfs/sfs_inode.c:440-535 | rejects exactly what the checks reject; the whole request is written exactly if there are blocks enough for it, and reported with all its bytes; a short write stops exactly because blocks run out, and no other file changes |
| SfsFile.Read | sw/ucore/kern/fs/sfs/sfs_inode.c:440-535 | the bytes from the offset on: all that are asked for, or all up to the size, exactly if there are blocks enough; if the file has fewer blocks than its size says the missing ones are made |
| SfsFile.CheckRange | sw/ucore/kern/fs/sfs/sfs_inode.c:443-453 | a request that is not rejected ends where it asks, or at the limit of 128 MB if that comes first |
| SfsFile.WriteThenRead | sw/ucore/kern/fs/sfs/sfs_inode.c:440-535 | a write and then a read of what was written gives the bytes back, all of them if there were blocks enough, at any offset that a write accepts |
| SfsFile.WrittenIsThere | sw/ucore/kern/fs/sfs/sfs_inode.c:440-535 | the bytes written lie in blocks of the file and inside its size, and are what they were in the buffer |
| SfsFile.ReadIsFlat | sw/ucore/kern/fs/sfs/sfs_inode.c:440-535 | what is returned is that part of the content, which does not change; if the blocks reach to the size nothing at all changes and nothing fails |
| SfsFile.WriteIsFlat | sw/ucore/kern/fs/sfs/sfs_inode.c:440-535 | as a flat sequence the file is old prefix + data + old suffix, complete or cut short, also where blocks are missing; the content of every other file is unchanged |
| SfsFile.RejectedExactly | sw/ucore/kern/fs/sfs/sfs_inode.c:443-453 | with 32-bit offsets the checks reject exactly offsets outside the limit and lengths that overflow |
| SfsFile.WriteKeepsRounded | sw/ucore/kern/fs/sfs/sfs_inode.c:528-535 | `blocks` stays the size rounded up if and only if the write does not start inside a missing block on a full disk |
| SfsFile.RoundingCanFail | sw/ucore/kern/fs/sfs/sfs_inode.c:528-535 | a sound disk and a write of one byte after which it is not |
| SfsFile.EmptyFileIsSound | sw/ucore/kern/fs/sfs/sfs_inode.c:153-317 | a disk with an empty file, with a free block and without, meets the invariant |
| SfsFile.Truncfile | sw/ucore/kern/fs/sfs/sfs_inode.c:778-818 | the size and the block count follow the request; failure exactly when too few blocks are free |
| SfsFile.TruncateIsFlat | sw/ucore/kern/fs/sfs/sfs_inode.c:778-818 | bytes below the smaller size are kept, `blocks` is the size rounded up, and the content of every other file is unchanged |
| SfsFile.FailedStretchKeepsRounded | sw/ucore/kern/fs/sfs/sfs_inode.c:794-817 | after a stretch that fails `blocks` is the size rounded up if and only if not one block could be made |
| SfsFile.StretchCanFail | sw/ucore/kern/fs/sfs/sfs_inode.c:794-817 | a sound disk with one free block on which stretching the empty file to two blocks fails and leaves one |
| FirstFit.PageAllocator.InitMemmap | sw/ucore/kern/mm/default_pmm.c:107-122 | the pages are added; the list stays canonical if and only if they lie above all free pages and touch none |
| FirstFit.PageAllocator.Alloc | sw/ucore/kern/mm/default_pmm.c:124-154 | the lowest start of n consecutive free pages, nothing exactly when there is none |
| FirstFit.PageAllocator.Free | sw/ucore/kern/mm/default_pmm.c:156-197 | the set of free pages grows by exactly these, and the list is again the list of the set |
| FirstFit.PageAllocator.AllocThenFree | sw/ucore/kern/mm/default_pmm.c:124-197 | what is allocated and freed leaves the identical list |
| FirstFit.ListIsUnique | sw/ucore/kern/mm/default_pmm.c:107-197 | a set of pages has only one sorted, disjoint, coalesced list |
| FirstFit.RunIsMaximal | sw/ucore/kern/mm/default_pmm.c:156-197 | a block of the list cannot be extended at either end |
| FirstFit.AppendLists | sw/ucore/kern/mm/default_pmm.c:107-122 | when appending at the end is right, in both directions |
| SlabShape.TakeOneOk | sw/ucore/kern/mm/kmalloc.c:370-381 | the chain of free indices loses its first, and is empty exactly when all objects are in use |
| SlabShape.GiveOneOk | sw/ucore/kern/mm/kmalloc.c:445-462 | a freed index becomes the first of the chain, which still visits each free index once |
| SlabShape.FreshSlabOk | sw/ucore/kern/mm/kmalloc.c:348-353 | a new slab has every index in its chain once |
| SlabShape.GeometryFits | sw/ucore/kern/mm/kmalloc.c:253-283 | in every cache objects and control block fit the pages, or the control block fits an object of a cache that keeps its own inside |
| SlabShape.MgmtHolds | sw/ucore/kern/mm/kmalloc.c:162-166 | the size of a control block holds a slab_t and its words, is a multiple of 16, and wastes less than one |
| SlabInit.TableFits | sw/ucore/kern/mm/kmalloc.c:169-194 | the table of precomputed quotients is exact: so many objects fit beside the control block, and one more does not |
| SlabInit.CacheEstimate | sw/ucore/kern/mm/kmalloc.c:169-202 | as many objects as the table says if the control block is inside, as many as fit if it is not, and what is left over |
| SlabInit.CalculateSlabOrder | sw/ucore/kern/mm/kmalloc.c:211-238 | the panics are never reached, and number and order are those of the layout |
| SlabInit.GetOrder | sw/ucore/kern/mm/kmalloc.c:240-250 | the cache of the smallest objects that are large enough |
| SlabInit.InitKmemCache | sw/ucore/kern/mm/kmalloc.c:253-283 | the layout of each of the caches |
| SlabState.ObjectsApart | sw/ucore/kern/mm/kmalloc.c:290-484 | in every state two allocated objects share no byte |
| SlabState.ControlApart | sw/ucore/kern/mm/kmalloc.c:290-308 | no object that a caller holds shares a byte with a control block |
| SlabState.WordsApart | sw/ucore/kern/mm/kmalloc.c:290-308 | the slab_t, and each word of bufctl behind it, lies outside every object that a caller holds |
| SlabState.NothingIsKept | sw/ucore/kern/mm/kmalloc.c:424-484 | when every object has been freed no slab and no page is kept, not even for control blocks |
| SlabState.SomebodyHolds | sw/ucore/kern/mm/kmalloc.c:424-484 | as long as there is a slab some caller holds an object |
| SlabState.InstallKeeps | sw/ucore/kern/mm/kmalloc.c:338-358 | a new slab keeps chains, lists and control blocks; its control block is an object nobody else holds |
| SlabState.TakeKeeps | sw/ucore/kern/mm/kmalloc.c:370-381 | taking an object keeps them; a slab that is full changes lists |
| SlabState.GiveKeeps | sw/ucore/kern/mm/kmalloc.c:445-462 | giving one back keeps them; a slab that was full changes lists |
| SlabState.DestroyKeeps | sw/ucore/kern/mm/kmalloc.c:424-456 | destroying a slab with its last object keeps them |
| Slabs.SlabAllocator.constructor | sw/ucore/kern/mm/kmalloc.c:115-123 | nothing is allocated |
| Slabs.SlabAllocator.Kmalloc | sw/ucore/kern/mm/kmalloc.c:383-419 | an object nobody held, of the smallest size that fits, exactly when its cache has one or can get a slab; otherwise nothing at all has changed, the free list included |
| Slabs.SlabAllocator.Kfree | sw/ucore/kern/mm/kmalloc.c:464-490 | exactly this object is free again; pages are conserved |
| Slabs.SlabAllocator.Grow | sw/ucore/kern/mm/kmalloc.c:324-367 | a new slab heads its list exactly when there are pages in a row for it, and for its control block an object or one page more; otherwise the very state of before is restored |
| Slabs.SlabAllocator.CacheAlloc | sw/ucore/kern/mm/kmalloc.c:383-407 | callers hold one object more, at its address, exactly when the cache has one or can get a slab |
| Slabs.SlabAllocator.CacheFree | sw/ucore/kern/mm/kmalloc.c:464-484 | callers hold exactly one object less, found from its address alone |
| Slabs.Located | sw/ucore/kern/mm/kmalloc.c:464-480 | page and index worked out from an address lead back to the object |
| Slabs.ControlLater | sw/ucore/kern/mm/kmalloc.c:326-336 | whether the control block can be had once the pages are taken can be told before: its cache has an object, or more pages are free than the slab takes |
| SkewHeap.SkewMerge | sw/ucore/kern/libs/skew_heap.h:29-59 | the pointers in memory become those of the merged tree, and nothing else changes |
| SkewHeap.SkewRemove | sw/ucore/kern/libs/skew_heap.h:69-85 | removing any process, root or not, leaves the pointers of the heap of the others |
| SkewTree.MergeNodes | sw/ucore/kern/libs/skew_heap.h:29-59 | a merge keeps exactly the nodes of both |
| SkewTree.MergeDistinct | sw/ucore/kern/libs/skew_heap.h:29-59 | and none twice |
| SkewTree.MergeOrdered | sw/ucore/kern/libs/skew_heap.h:29-59 | a merge keeps the heap order for any total preorder |
| SkewTree.RemoveIsRight | sw/ucore/kern/libs/skew_heap.h:69-85 | removal keeps exactly the other nodes, and the order |
| SkewTree.RootIsLeast | sw/ucore/kern/libs/skew_heap.h:29-59 | the root of an ordered heap is a least one |
| SkewTree.MergeIsAmortised | sw/ucore/kern/libs/skew_heap.h:29-59 | the calls of a merge, less what they take from the number of right-heavy nodes, are at most two for each light node on the spines |
| SkewTree.LightsAreFew | sw/ucore/kern/libs/skew_heap.h:29-59 | there are at most log2(n+1) light nodes on a spine |
| SkewTree.RunsAreAmortised | sw/ucore/kern/libs/skew_heap.h:29-85 | any m insertions and root removals make at most m (4k+2) calls beyond the potential at the start, which is at most the size, while the heap has fewer than 2^(k+1) - 1 processes, with the keys changed at will between the operations |
| SkewTree.RootRemoval | sw/ucore/kern/libs/skew_heap.h:61-85 | the root removals of those runs are `skew_heap_remove` of the root |
| SkewHeap.WindowAgrees | sw/ucore/kern/schedule/default_sched.c:12-25 | strides within BIG_STRIDE of each other compare as the unbounded ones do |
| SkewHeap.ComparesRightlyExactly | sw/ucore/kern/schedule/default_sched.c:12-25 | for any two unbounded strides: stored modulo 2^32 they compare rightly in both orders if and only if they are equal or the rest of their distance modulo 2^32 is between 1 and BIG_STRIDE |
| SkewHeap.WindowIsExact | sw/ucore/kern/schedule/default_sched.c:12-25 | for strides less than 2^32 apart that is exactly the window of BIG_STRIDE |
| SkewHeap.JustOutside | sw/ucore/kern/schedule/default_sched.c:12-25 | at a distance of BIG_STRIDE + 1 each of the two is said to be the smaller one |
| Stride.RunQueue.Enqueue | sw/ucore/kern/schedule/default_sched.c:59-74 | the process joins the heap, its slice is renewed if used up, the true strides are kept |
| Stride.RunQueue.Dequeue | sw/ucore/kern/schedule/default_sched.c:84-95 | exactly this process leaves, also when it is the root whose key was just raised |
| Stride.RunQueue.CountIsRight | sw/ucore/kern/schedule/default_sched.c:59-95 | the counter of the queue is the number of processes in it |
| Stride.RunQueue.PickNext | sw/ucore/kern/schedule/default_sched.c:109-135 | a process of least true stride, which grows, while it is still in the heap, by BIG_STRIDE for priority 0 and otherwise by the largest number that goes priority times into BIG_STRIDE |
| Stride.RunQueue.Turn | sw/ucore/kern/schedule/sched.c:78-103 | one pass through the scheduler: the current process goes in, one of least stride comes out, raised as its priority says, inside the window again and so ready for the next turn; priorities are kept |
| Stride.RunQueue.Turns | sw/ucore/kern/schedule/sched.c:78-103 | any number n of turns of the queue in memory: every stride has grown by turns times pass, all are inside the window, turns are in proportion to priorities up to BIG_STRIDE and the rounding of the pass, and, if no priority exceeds BIG_STRIDE, everybody has a turn within a number of turns given by the strides at the start, and within twice the sum of the other priorities |
| Stride.RunQueue.OneTurn | sw/ucore/kern/schedule/sched.c:78-103 | a turn of the queue in memory is a turn of the run of unbounded strides |
| Stride.RunsKeepTheWindow | sw/ucore/kern/schedule/default_sched.c:109-135 | after any number of turns all unbounded strides are within BIG_STRIDE, each grown by turns times pass |
| Stride.TurnsAreFair | sw/ucore/kern/schedule/default_sched.c:109-135 | turns times pass of any two processes differ by at most BIG_STRIDE plus their initial gap |
| Stride.PassIs | sw/ucore/kern/schedule/default_sched.c:131-133 | BIG_STRIDE for priority 0, else the largest number that goes priority times into it; positive if and only if the priority is at most BIG_STRIDE |
| Stride.NobodyStarves | sw/ucore/kern/schedule/default_sched.c:109-135 | in every run with positive passes a process is picked before the others together have had as many turns as bring each of them past it |
| Stride.PriorityRun | sw/ucore/kern/schedule/default_sched.c:109-135 | every run of turns in priorities: proportional turns, and a bound on the wait of everybody |
| Stride.LargerStarves | sw/ucore/kern/schedule/default_sched.c:131-133 | a priority above BIG_STRIDE has pass zero, and such a process, once least, can be picked for ever |
| Pids.PidAllocator.GetPid | sw/ucore/kern/process/proc.c:191-223 | with fewer than MAX_PID - 1 processes it ends with a free pid such that all pids from the one after the last result up to it, around the circle, are in use; the cached interval is safe again, also with the new process |
| Pids.PidAllocator.Scan | sw/ucore/kern/process/proc.c:201-222 | the scan ends, by the cyclic distance to the nearest free pid |
| Pids.FirstFreeIsUnique | sw/ucore/kern/process/proc.c:191-223 | there is only one such pid |
| Pids.SomePidIsFree | sw/ucore/kern/process/proc.c:191-223 | one is always free |
| Timers.TimerList.Add | sw/ucore/kern/schedule/sched.c:105-125 | the list stands for the old remaining times with the new one behind those up to it |
| Timers.TimerList.Delete | sw/ucore/kern/schedule/sched.c:127-144 | every other remaining time is what it was; a timer that is not linked changes nothing |
| Timers.TimerList.Tick | sw/ucore/kern/schedule/sched.c:146-176 | all times fall by one; the timers that had one tick left are the front of the list and fire in its order, and the others stay in theirs |
| Timers.FiresOnTime | sw/ucore/kern/schedule/sched.c:105-176 | an undeleted timer of t ticks is fired by the t-th later tick, and by no earlier or later one, whatever is added and deleted in between; until then it waits for what is left |
| Timers.ListIsCalm | sw/ucore/kern/schedule/sched.c:105-176 | a valid list stands for times that do not fall and are not zero |
| Timers.Run | sw/ucore/kern/schedule/sched.c:105-176 | the list under any run of additions, deletions and ticks stands for what the run makes of the times |
| Timers.FiresInTheList | sw/ucore/kern/schedule/sched.c:105-176 | in the list itself, after any possible run a tick fires the timer if and only if it is the t-th one |
| Timers.DeletedNeverFires | sw/ucore/kern/schedule/sched.c:105-176 | a timer that is deleted and not added again is fired by no tick of any possible run |
| Timers.OneTimeEach | sw/ucore/kern/schedule/sched.c:105-176 | the numbers in a list differ, so each one waits for exactly one time |
| Timers.FiredIs | sw/ucore/kern/schedule/sched.c:146-176 | exactly the timers without ticks left fire |
| Timers.FiredAre | sw/ucore/kern/schedule/sched.c:146-176 | those that fire are the front of the list, in its order |
| Timers.InsertIs | sw/ucore/kern/schedule/sched.c:105-125 | a timer stands behind exactly those that fire before it or with it, so equal deadlines fire in the order of insertion |
| Timers.Undisturbed | sw/ucore/kern/schedule/sched.c:105-176 | one event of others fires a timer if and only if it is a tick and one tick was left, and otherwise takes at most the tick from it |
| Family.Ancestors | sw/ucore/kern/process/proc.c:163-188 | in every forest following parents ends at the idle process |
| Family.LinkInKeepsForest | sw/ucore/kern/process/proc.c:163-172 | a new child leaves a forest with one child more in front |
| Family.UnlinkKeepsForest | sw/ucore/kern/process/proc.c:175-188 | a process without children leaves a forest of the others |
| Family.ReparentKeepsForest | sw/ucore/kern/process/proc.c:565-580 | moving a child to the init process keeps the forest in every turn of the loop |
| ProcTable.Kernel.WakeupProc | sw/ucore/kern/schedule/sched.c:58-75 | the process runs and is queued once unless it is the current one |
| ProcTable.Kernel.Schedule | sw/ucore/kern/schedule/sched.c:78-103 | the queue holds exactly the runnable processes but the current one and idle, and idle runs only if nobody else can |
| ProcTable.Kernel.Sleep | sw/ucore/kern/process/proc.c:1332-1348 | the process sleeps and another one runs; all links and lists are kept |
| ProcTable.Kernel.Wake | sw/ucore/kern/schedule/sched.c:58-75 | a sleeper runs again; everything else is kept |
| ProcTable.Kernel.Kill | sw/ucore/kern/process/proc.c:1112-1125 | the results of all three cases; the process is marked with its links unchanged, is runnable and queued exactly if it slept in do_wait or in an interruptible wait, and keeps its state and wait otherwise; every other process is unchanged |
| ProcTable.Kernel.Fork | sw/ucore/kern/process/proc.c:448-521 | a new runnable child, first among the children of its parent, under the next free pid; state, wait and parent of everybody else stay; failure changes no process |
| ProcTable.Kernel.Search | sw/ucore/kern/process/proc.c:1061-1080 | the first zombie among the children it is asked for is found if there is one |
| ProcTable.Kernel.SearchAll | sw/ucore/kern/process/proc.c:1072-1080 | the loop along the sibling links finds the first zombie, and sees every child |
| ProcTable.Kernel.Wait | sw/ucore/kern/process/proc.c:1050-1108 | no child, a collected zombie, or asleep with nothing to collect: exactly when which, and what each leaves behind |
| ProcTable.Kernel.Collect | sw/ucore/kern/process/proc.c:1092-1108 | exactly the zombie leaves the process list and the children of its parent, the others stay in their order and keep state, wait and parent |
| ProcTable.Kernel.Exit | sw/ucore/kern/process/proc.c:528-586 | a zombie without children remains, its children belong to the init process; exactly its parent, and the init process if a zombie moves to it, are woken when they wait for children, so nobody sleeps over a zombie |
| ProcTable.Kernel.GiveAway | sw/ucore/kern/process/proc.c:565-580 | the loop moves all children and nobody else, and the init process hears of it exactly if one of them is a zombie |
| ProcTable.TellOn | sw/ucore/kern/process/proc.c:574-579 | whether a zombie moves can be told from the state before the loop |
| ProcTable.DyingWaits | sw/ucore/kern/process/proc.c:553-564 | becoming a zombie leaves no parent asleep that waits for it |
| ProcTable.MovedWaits | sw/ucore/kern/process/proc.c:565-580 | moving a zombie child leaves the init process not asleep for it |
| PageTables.AddressSpace.GetPte | sw/ucore/kern/mm/pmm.c:214-272 | a table is made exactly when it is missing, asked for and a frame is free; the mapping does not change |
| PageTables.AddressSpace.Insert | sw/ucore/kern/mm/pmm.c:351-369 | the mapping gains one entry or nothing has changed; exactly a frame that loses its last entry is freed |
| PageTables.AddressSpace.AllocPage | sw/ucore/kern/mm/pmm.c:371-386 | succeeds exactly if there is a free frame, and a second one for a missing table; then a frame that was free is mapped at the page, and a failure changes nothing |
| PageTables.AddressSpace.Fault | sw/ucore/kern/mm/vmm.c:402-412 | a page that is not mapped gets a free frame exactly if there are enough; a page that is mapped stays, a failure changes no mapping and can leave one new table behind |
| PageTables.AddressSpace.Remove | sw/ucore/kern/mm/pmm.c:334-340 | exactly this page is unmapped, and its frame is freed exactly with its last entry |
| PageTables.AddressSpace.RemovePte | sw/ucore/kern/mm/pmm.c:291-331 | the same for a page whose table is there |
| PageTables.AddressSpace.UnmapRange | sw/ucore/kern/mm/pmm.c:559-575 | exactly the pages in range lose their mapping although missing tables are skipped as a whole |
| PageTables.AddressSpace.ExitRange | sw/ucore/kern/mm/pmm.c:577-591 | the tables that the range meets become free |
| PageTables.AddressSpace.ExitMmap | sw/ucore/kern/mm/vmm.c:209-222 | every data frame is free again, and every table that an area meets is gone from the directory and free, so that nothing is left if all tables were made for areas |
| PageState.MapKeepsInv | sw/ucore/kern/mm/pmm.c:351-369 | tables refine the map with the entry added, and every reference count is the number of entries |
| PageState.UnmapKeepsInv | sw/ucore/kern/mm/pmm.c:291-331 | the same for an entry removed |
| PageState.NewTableKeepsInv | sw/ucore/kern/mm/pmm.c:214-272 | a new table of zeroes changes no mapping |
| PageState.TakeKeepsInv | sw/ucore/kern/mm/pmm.c:57-68 | a free frame has count zero and no entry, so that it can be taken and mapped |
| PageState.DropTableKeepsInv | sw/ucore/kern/mm/pmm.c:577-591 | an empty table may go |
| PageState.RemapKeepsInv | sw/ucore/kern/mm/pmm.c:351-369 | inserting the frame that is mapped already changes the permission only |
| Vmas.Mm.FindVma | sw/ucore/kern/mm/vmm.c:73-97 | with its cache the result is that of the scan in every reachable state |
| Vmas.Mm.Insert | sw/ucore/kern/mm/vmm.c:108-139 | the area is put at its place; the overlap assertions hold |
| Vmas.Mm.Map | sw/ucore/kern/mm/vmm.c:156-185 | the three results exactly: refused, no memory, mapped; the ends of an accepted area are page multiples, less than a page outside the request, which it contains if its end is a word; the list stays sorted and disjoint |
| Vmas.Mm.UserMemCheck | sw/ucore/kern/mm/vmm.c:448-473 | true exactly if the range is not empty, lies in user space, and every byte lies in an area with the right asked for, above the guard page for stack writes |
| Vmas.FreeExactly | sw/ucore/kern/mm/vmm.c:168-171 | the test of `mm_map` holds exactly when some area meets the range |
| Vmas.PassesExactly | sw/ucore/kern/mm/vmm.c:159-162 | which requests pass the first test of `mm_map`: those inside user space that meet a page; with an end beyond 2^32, those whose rest lies inside the page of the address |
| Vmas.CoversExactly | sw/ucore/kern/mm/vmm.c:159-162 | an area that is accepted holds every byte of the request if and only if the end of the request is below 2^32 |
| Vmas.ShorterThanAsked | sw/ucore/kern/mm/vmm.c:159-162 | a request of 2^32 - 1 bytes that is accepted and gets one page |
| Vmas.ScanFindsIt | sw/ucore/kern/mm/vmm.c:73-97 | the area of an address is what the scan finds |
| Divide.Divu10Divides | sw/ucore/kern/include/loongarch.h:29-38 | for every 32-bit number the shift series is division by ten |
| Divide.Divu5Divides | sw/ucore/kern/include/loongarch.h:40-48 | and the other one division by five |
| Divide.Series | sw/ucore/kern/include/loongarch.h:31-34 | the refined sum is 16/15 of the first estimate with an error below four, by bounds and not by cases |
| Divide.Mulu10Exact | sw/ucore/kern/include/loongarch.h:22-25 | two shifts multiply by ten up to the wrap-around |
| Numerals.PrintNum | sw/ucore/kern/libs/printfmt.c:81-117 | writes padding of the given character and digits behind the text, in exactly max(width, digits) places; read by the codes of its characters the text behind the padding is the number, without leading zeros, for bases 8, 10 and 16 and for numbers below the base |
| Numerals.ShownReads | sw/ucore/kern/libs/printfmt.c:116 | each character that is written is worth its digit, and the text is worth what the digits are |
| Numerals.WritesTheNumeral | sw/ucore/kern/libs/printfmt.c:81-117 | for bases 8, 10 and 16 the digits are the one numeral without leading zeros that has the value |
| Numerals.ReadsBack | sw/ucore/kern/libs/printfmt.c:81-117 | for every base the digits read in the radix used give the number |
| Numerals.RightExactly | sw/ucore/kern/libs/printfmt.c:81-117 | the right numeral is written if and only if the base is 8, 10 or 16 or the number is below the base |
| Numerals.WrongInBaseTwo | sw/ucore/kern/libs/printfmt.c:98-104 | two in base two comes out as 02 |

## Left out

- PhilosophersMonitor.MonitorIsSafeAndFinishes: the monitor and its callers are a state machine on values, one step for each access; the code of `monitor.c` as sequential methods is not repeated.
- PhilosophersSem.PhilosophersAreSafeAndFinish: `do_sleep` between thinking and eating is no step, since it touches none of the shared state.
- ProcTable.Kernel.Schedule: which runnable process is next is left open, since the scheduling class decides; priorities and time slices are in `Stride` only.
- ProcTable.Kernel.Sleep: the timer that `do_sleep` adds and deletes is in `Timers`, not in the state of the process table.
- ProcTable.Kernel.Exit: memory and files of the process, and the panics for the idle and the init process, are not modelled.
- ProcTable.Kernel.Fork: copying memory, files and the trapframe is one flag that says whether there was memory enough.
- ProcTable.Kernel.Wait: process records are values in a map from pids; writing the exit code to user memory is not modelled.
- PageTables.AddressSpace.Insert: one address space; a page-table word is its fields and not its bits, and a missing frame is any free one.
- PageTables.AddressSpace.Fault: the checks of `do_pgfault` in front of it, that an area holds the address and allows the access, and the count of page faults.
- PageTables.AddressSpace.ExitRange: what `unmap_range` left mapped is excluded by the caller, `exit_mmap`, which unmaps first.
- Vmas.Mm.UserMemCheck: the branch for kernel threads without memory areas, which is a comparison of bounds.
- SfsFile.Write: the one function for both directions is two methods, and the modelled write starts at most in the block after the last one, as `sfs_bmap_load_nolock` asserts, and ends within 12 + 1024 blocks, so that the limit of 128 MB, which `SfsFile.CheckRange` states for every request, never cuts one.
- SfsFile.Read: ends beyond 12 + 1024 blocks, and starts beyond the block after the last, for which the code asserts.
- SfsFile.Truncfile: lengths above 12 + 1024 blocks; and the old tail of the last block is not claimed to be zero when a file grows inside it, because the code does not clear it.
- SkewTree.RunsAreAmortised: removal of a process other than the root is not part of the runs, since its cost is not bounded this way.
- Bitmaps.Bitmap.Alloc: a word is the sequence of its bits; the exclusive or with a shifted one is the change of that bit.
- Slabs.SlabAllocator.Kmalloc: sizes of zero and above 128 KB, for which the code panics (so its `NULL` for larger orders is never reached).
- Double-indirect blocks, reclaiming inodes, directories and creating or removing files.
- `copy_range`: it rounds with a different shift from `unmap_range`, so its completeness is not claimed.
- Interrupt masks, context switches, trapframes, the address translation buffer and cache instructions.
- Circular list pointers of `list.h`, except where the links are the point (red-black tree, skew heap, siblings); lists are sequences.
- Console and input buffers, the formats of `vprintfmt` other than numbers, and the self-tests of the kernel.
- Boot code, hardware wrappers, host tools and scripts.
