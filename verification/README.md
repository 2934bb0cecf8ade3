# snmalloc in Dafny

A model of the algorithms at the core of snmalloc, a concurrent memory
allocator, with proofs about all inputs, all reachable states or all runs. The
parts, each in the form its code has:

- **The search trees of free chunks** (`ChunkWord`, `RBSpec`, `RBHeap`,
  `RBSteps`, `RBTree`, `Forest`). Red-black trees without parent pointers, changed
  in place along an explicit path of 128 steps. A node is two words of a pagemap
  entry; colour and decommitted flag are bits of the first child word, and what
  writing an address or a flag leaves alone is proved of the words. The class is
  proved against a finite set of keys: insertion and removal keep the search
  order, the colours and the black depth, and write nothing but the words of the
  tree. The trees of all block sizes share one pagemap.
- **Protocols between threads** (`CombiningLock`, `CombiningOrder`,
  `CombiningProgress`, `MpscQueue`, `MpscDelivery`, `AbaStack`, `AbaProgress`,
  `AbaWrap`, `ForkGate`, `ForkProgress`). Each is a step relation over any number
  of threads in which every step makes one atomic access to shared memory.
  Inductive invariants give theorems about every state of every run; measures give
  what each operation gets done and in how many steps.
- **The range layer** (`RangeBlocks`, `BuddySpec`, `BuddyRefill`, `Buddy`,
  `LargeBuddyRange`). Cutting a range into power-of-two blocks, the buddy
  allocator with its three cached blocks per size over the trees above, and the
  range on top of it, which refills itself from an aligned or an unaligned parent,
  passes large blocks back and returns idle memory to the operating system. The account is kept by the byte: who holds it and whether it is
  committed.
- **Size classes** (`ExpMant`, `Reciprocal`, `SizeClass`, `SlabCapacity`,
  `SlabTable`, `Rounding`). The exponent and mantissa maps, the lookup table, division by
  multiplication with a reciprocal, and the rounding of aligned requests. All of it
  is for every legal setting of the build.
- **New slabs** (`Slab`). The random cycle through the objects of a slab and the
  walk around it.
- **The pprof writer** (`Wire`, `Pprof`, `PprofWriter`). Protocol Buffers
  written by hand, read back by the rules of the encoding.

`Bits` holds the arithmetic of powers of two that these share, `Lists` the linked
chains of the queue and the stack.

What the model takes as given:

- Atomic accesses are sequentially consistent. A weak compare-exchange may fail
  without a reason.
- Fields named as history or bookkeeping in a state (the order of exchanges, the
  log of finished thunks, who holds a byte) are never read by a step.
- The pagemap has an entry for every chunk address, with no flag set at first.
- The bytes of a range never include all of a block whose address is its size:
  its buddy would be the null address (`BuddySpec.NullBuddy`). One merge needs
  less, and `BuddySpec.ChainSafeWhen` says exactly what. Which blocks may not
  merge is a fixed set of boundary addresses. Committing memory always succeeds,
  and what a parent range supplies is committed and in nobody's hands. A parent
  that does not align supplies less than the size not kept, as the code asserts.
- Fork handlers run outside any region of their own thread, and no thread is
  created in the child of a fork before its last handler has run.
- Sizes and addresses are unbounded integers; wrap-around, saturation and
  truncation of words are written out where the code relies on them.

Places where the code and what is written about it differ, or where a promise
has an exception:

- A packed field without values writes nothing (`snmalloc-rs/src/pprof.rs:139-141`),
  although the comment above it speaks of a zero-length record. The model
  follows the code; a reader sees the empty list in both cases.
- The size given to an aligned request is a multiple of the alignment unless the
  rounded request falls below the smallest class in use and the size of that is
  not. `Rounding.RoundedIsAligned` has this condition for every request and every
  legal build; `Rounding.AlwaysServesWhen` shows that a build has no such request
  exactly if the smallest class in use has a power of two for its size. Instances
  are minimum allocations of 48 bytes in a default build and of 80 with three
  intermediate bits. The default minimum of 16 bytes is not affected.
- 256 size classes pass the assertion on their number, but the 8-bit counter of the
  table's constructor gets to the end of its loop exactly if there are fewer
  (`SizeClass.LoopEndsWhen`, `SizeClass.TooManyClasses`).
- A pop of the lock-free stack compares a counter of 64 bits. The stack is
  linearizable exactly as long as no pop succeeds with a `next` that is no longer
  that of the top item (`AbaStack.Linearizable`). A counter that has not gone
  around rules that out (`AbaStack.TimelyRuns`); pushes and pop_alls need no
  counter at all. `AbaWrap.WrapCollides` is a run with 2^64 successes in which an
  item is lost.
- That a reciprocal has room for every object of a slab rests on more than the
  assertion on the largest capacity: a slab could be larger than that many objects.
  `SlabCapacity.SlabFits` shows that none is, for three objects and more; the
  builds have 4 or 13.
- `range_to_pow_2_blocks` takes the difference of two pointers that is negative
  when the range holds no multiple of the smallest block size.
  `RangeBlocks.NoAlignedPoint` shows that this is the exact condition, and
  `RangeBlocks.WrapsBeyond` that the wrapped length then makes the first block
  start beyond the range; the method requires such a point.
- The search of the cache for a null buddy matches an empty slot, exactly for a
  block whose address is its size (`Buddy.NullBuddyFound`). `Buddy.RemoveBuddy`
  says exactly when it then reports a buddy that is not free, and `Buddy.AddBlock`
  needs only that this does not happen to the block that comes out.
- A refill of 2^maxBits bytes from an unaligned parent, which the code excludes by
  an assertion, can be a single block too large to keep
  (`BuddyRefill.RefillAtTheLimit`).
- String indices are cut to 32 bits: the pprof message reads back as written
  exactly if there are at most 2^32 - 5 different frames (`PprofWriter.WritePprof`).
- Divisibility by the reciprocal needs only offset * size <= 2^64, and nothing for a
  size that divides the scale.

Check everything with `dafny verify dfyconfig.toml`.

## Model

| member | source | states |
|---|---|---|
| `ChunkWord.SetKeepsFlags` | src/snmalloc/backend_helpers/largebuddyrange.h:168-183 | storing an address in a word keeps both flag bits, and reading gives the address back |
| `ChunkWord.SetRedOnly` | src/snmalloc/backend_helpers/largebuddyrange.h:205-218 | flipping the colour bit sets it as asked and changes neither the address nor the decommitted flag |
| `ChunkWord.SetDecommittedOnly` | src/snmalloc/backend_helpers/largebuddyrange.h:223-239 | the same for the decommitted flag, which leaves address and colour |
| `RBHeap.TouchesWords` | src/snmalloc/backend_helpers/largebuddyrange.h:168-239 | a change that is confined to some nodes of the tree leaves every other entry as it was bit for bit, and every decommitted flag everywhere |
| `RBSpec.PlugRB` | src/snmalloc/ds_core/redblacktree.h:166-218 | a subtree with the right black depth, red only below a black parent, completes its surroundings to a tree with a black root, no red node with a red child and equal black depths |
| `RBSpec.UnplugRB` | src/snmalloc/ds_core/redblacktree.h:166-218 | the converse, for every split of such a tree |
| `RBSpec.HeightBound` | src/snmalloc/ds_core/redblacktree.h:255-266 | 2^((height+1)/2) is at most the number of keys plus one, so the height is at most twice the logarithm |
| `RBSteps.LiftedSound` | src/snmalloc/ds_core/redblacktree.h:657-730 | lifting a double red keeps black depths and keys and leaves a red node two levels up |
| `RBSteps.SplicedSound` | src/snmalloc/ds_core/redblacktree.h:483-527 | after the replacement has been spliced in, the tree is well coloured if the replacement was red, and one black short at the end of the path otherwise |
| `RBSteps.SplicedOrdered` | src/snmalloc/ds_core/redblacktree.h:483-519 | the splice keeps the search order and takes out exactly the key to be removed, for a predecessor, a lone right child or no child |
| `RBSteps.SiblingRaisedSound` | src/snmalloc/ds_core/redblacktree.h:544-572 | rotating a red sibling keeps the missing black where it was, the keys and the order |
| `RBSteps.NiblingRaisedSound` | src/snmalloc/ds_core/redblacktree.h:574-620 | rotating a red nibling restores the black depth in both mirror cases |
| `RBSteps.SiblingReddenedSound` | src/snmalloc/ds_core/redblacktree.h:622-641 | reddening the sibling ends the repair below a red parent and moves the missing black up below a black one |
| `RBTree.RBTree.PathFits` | src/snmalloc/ds_core/redblacktree.h:259-259 | with fewer than 2^62 keys no node lies deeper than 124, so every path fits its 128 steps |
| `RBTree.RBTree.Move` | src/snmalloc/ds_core/redblacktree.h:305-316 | the path is extended to a child exactly when there is one |
| `RBTree.RBTree.Fixup` | src/snmalloc/ds_core/redblacktree.h:336-364 | walking the path again makes it the path of the spliced tree |
| `RBTree.RBTree.Find` | src/snmalloc/ds_core/redblacktree.h:464-479 | found exactly if the key is present; otherwise the path ends at the empty place where the key belongs |
| `RBTree.RBTree.FindReplacement` | src/snmalloc/ds_core/redblacktree.h:488-498 | the path ends at the predecessor, the lone right child or the node itself, which has no right child, within 125 steps |
| `RBTree.RBTree.SpliceOut` | src/snmalloc/ds_core/redblacktree.h:498-519 | the memory holds the spliced tree and the path leads to its hole |
| `RBTree.RBTree.RotateRedSibling` | src/snmalloc/ds_core/redblacktree.h:555-572 | the memory holds the rotated tree; the path grows by one step and still fits |
| `RBTree.RBTree.AbsorbIntoNibling` | src/snmalloc/ds_core/redblacktree.h:581-620 | after either nibling rotation the whole tree is valid with the same keys |
| `RBTree.RBTree.ReddenSibling` | src/snmalloc/ds_core/redblacktree.h:622-636 | the memory holds the tree with the sibling red; other nodes and all flags, as read from the words, stay |
| `RBTree.RBTree.RepairDoubleBlack` | src/snmalloc/ds_core/redblacktree.h:538-643 | from any tree one black short at the end of the path, the loop ends in a valid tree with the same keys |
| `RBTree.RBTree.RemovePath` | src/snmalloc/ds_core/redblacktree.h:481-644 | the tree stays ordered and well coloured and loses exactly the key at the end of the path; the words of entries outside the tree stay bit for bit, and so does every decommitted flag |
| `RBTree.RBTree.LiftDoubleRed` | src/snmalloc/ds_core/redblacktree.h:668-724 | in both cases the memory holds the lifted tree |
| `RBTree.RBTree.InsertPath` | src/snmalloc/ds_core/redblacktree.h:646-733 | the tree stays valid and gains exactly the key; the words of foreign entries and every decommitted flag stay |
| `RBTree.RBTree.InsertElem` | src/snmalloc/ds_core/redblacktree.h:809-818 | inserts if and only if the key was absent |
| `RBTree.RBTree.RemoveElem` | src/snmalloc/ds_core/redblacktree.h:796-807 | removes if and only if the key was present |
| `RBTree.RBTree.RemoveMin` | src/snmalloc/ds_core/redblacktree.h:780-794 | null from the empty tree, else the least key, which leaves the tree |
| `RBTree.RBTree.ForEach` | src/snmalloc/ds_core/redblacktree.h:740-776 | visits every key, each once |
| `Forest.Forest.RemoveMin` | src/snmalloc/backend_helpers/buddy.h:39-45 | the least key leaves one tree; the trees of the other sizes, in the same pagemap, and all flags stay |
| `Forest.Forest.InsertAt` | src/snmalloc/backend_helpers/buddy.h:39-45 | a key that no tree holds joins one tree; the others and all flags stay |
| `Forest.Forest.RemoveAt` | src/snmalloc/backend_helpers/buddy.h:39-45 | the key at the end of the path leaves one tree; the others and all flags stay |
| `Forest.Forest.SetMark` | src/snmalloc/backend_helpers/largebuddyrange.h:231-239 | setting a decommitted flag changes that flag and no tree |
| `CombiningLock.RunKeepsInv` | src/snmalloc/ds/combininglock.h:152-304 | the invariant of the lock holds in every state of every run |
| `CombiningLock.MutualExclusion` | src/snmalloc/ds/combininglock.h:274-304 | at most one thunk executes at a time |
| `CombiningLock.QueueOrder` | src/snmalloc/ds/combininglock.h:152-210 | queued thunks have run in the order in which their calls exchanged `last` |
| `CombiningOrder.NoOvertaking` | src/snmalloc/ds/combininglock.h:281-303 | a call that has not looked at the queue while another one stands in it, its thunk not yet run, does not run before that one |
| `CombiningOrder.Uncontended` | src/snmalloc/ds/combininglock.h:281-297 | a new call that finds the lock free and is not disturbed runs its thunk and returns, and never writes `last` |
| `CombiningOrder.Combines` | src/snmalloc/ds/combininglock.h:193-210 | a call that has run a queued thunk and sees the next node linked keeps the lock until it has run the thunk of that one too |
| `CombiningLock.ExactlyOnce` | src/snmalloc/ds/combininglock.h:274-304 | no thunk runs twice, and a call that has returned has run its own once |
| `CombiningLock.NoUseAfterReturn` | src/snmalloc/ds/combininglock.h:193-244 | no step reads or writes the node of a call that has returned |
| `CombiningLock.DoneIsFinal` | src/snmalloc/ds/combininglock.h:228-244 | once a node is marked done, no other thread touches it or has still to write its link |
| `CombiningLock.NeverStuck` | src/snmalloc/ds/combininglock.h:121-245 | while a call has not returned, some call can take a step that is neither a spin nor an exchange of the flag that must fail |
| `CombiningProgress.AlmostProductive` | src/snmalloc/ds/combininglock.h:152-190 | such a call is at most one step away from a productive one |
| `CombiningProgress.SpinsQuietly` | src/snmalloc/ds/combininglock.h:121-150 | waiting for a status, the flag or a link changes nothing |
| `CombiningProgress.EffortSpent` | src/snmalloc/ds/combininglock.h:152-304 | every productive step lowers a measure of the work left, and no other step raises it |
| `CombiningProgress.BoundedWork` | src/snmalloc/ds/combininglock.h:152-304 | once no more calls start, the number of steps that are not spins is at most 36 for each call and 20 for each queued node |
| `MpscQueue.RunKeepsInv` | src/snmalloc/mem/freelist_queue.h:98-202 | the invariant of the queue holds in every state of every run |
| `MpscQueue.DeliveredInOrder` | src/snmalloc/mem/freelist_queue.h:98-202 | what has been delivered since the queue was last destroyed is a prefix of the messages in the order of the exchanges of `back`; every other message links to the next one, or to null while the producer of the next is about to write the link, and the last one is `back` |
| `MpscQueue.FrontIsFirstUndelivered` | src/snmalloc/mem/freelist_queue.h:144-202 | between calls `front` is the first undelivered message, or null while the first append is under way |
| `MpscQueue.CanDequeueMeansTwo` | src/snmalloc/mem/freelist_queue.h:85-89 | for `front` read in one state and `back` in a later one: with a front, `can_dequeue` holds exactly if two messages are undelivered at the second read; without, exactly if something has been appended |
| `MpscQueue.NoUseAfterDelivery` | src/snmalloc/mem/freelist_queue.h:119-134 | no producer links to, and the consumer does not read, a message that has been delivered |
| `MpscQueue.ShortStopIsPendingLink` | src/snmalloc/mem/freelist_queue.h:166-173 | stopping before the bound means that some producer has yet to write the link |
| `MpscDelivery.StopsAtBoundOrLink` | src/snmalloc/mem/freelist_queue.h:163-201 | the consumer stops only when everything before its bound is delivered, or where a producer is about to write the link |
| `MpscDelivery.DequeueDelivers` | src/snmalloc/mem/freelist_queue.h:144-202 | with no append under way, a `dequeue` that is not stopped delivers every message but the last, which becomes the front |
| `MpscDelivery.StopsWhenAsked` | src/snmalloc/mem/freelist_queue.h:174-189 | a callback that asks to stop ends the `dequeue` with its message delivered, no other one, and the next one as the front |
| `MpscDelivery.EnqueueAppends` | src/snmalloc/mem/freelist_queue.h:98-134 | an undisturbed append puts its messages last, in order, linked to what was the last message before |
| `MpscDelivery.EnqueueFinishes` | src/snmalloc/mem/freelist_queue.h:98-134 | an append takes three steps of its own, each possible whatever the others do |
| `MpscQueue.DestroyReturnsTheRest` | src/snmalloc/mem/freelist_queue.h:61-70 | with no append under way, `destroy` returns the list of exactly the undelivered messages in order and leaves an empty queue, which runs on |
| `AbaStack.RunKeepsInv` | src/snmalloc/ds/mpmcstack.h:44-96 | the invariant of the stack holds in every state of every run up to which no pop was stale, while freed items are overwritten at will |
| `AbaStack.Linearizable` | src/snmalloc/ds/mpmcstack.h:44-96 | in all states of a run so far the successful stores, in order, are a history of a sequential stack that ends in the list in memory, exactly if no pop that succeeded held a `next` other than that of the top item |
| `AbaStack.ItemsConserved` | src/snmalloc/ds/mpmcstack.h:44-96 | such a history neither loses nor invents an item |
| `AbaStack.OneEventPerOperation` | src/snmalloc/ds/mpmcstack.h:44-96 | in such runs every finished operation took effect exactly once, with the result it returned |
| `AbaStack.PopUsesCurrentNext` | src/snmalloc/ds/mpmcstack.h:64-76 | a pop that succeeds takes the top item; the `next` it holds is that of the second item exactly if the invariant survives |
| `AbaStack.TimelyRuns` | src/snmalloc/ds/aba.h:67-118 | if every successful pop compares before its counter has gone around all 2^64 values, no pop is stale |
| `AbaStack.NoSuccessBetween` | src/snmalloc/ds/aba.h:67-118 | in every run: if the 64-bit counter word is the same at two moments, no store has succeeded between them, or at least 2^64 have |
| `AbaProgress.LockFree` | src/snmalloc/ds/mpmcstack.h:44-96 | six steps of an operation without a spurious failure end it, or some operation has succeeded meanwhile |
| `AbaWrap.WrapCollides` | src/snmalloc/ds/aba.h:97-118 | there is a run in which a pop waits while 2^64 operations succeed, then succeeds itself; the item below the top is lost, and the list goes on with whatever the owner of a popped item has written there |
| `ForkGate.RunKeepsInv` | src/snmalloc/ds_aal/prevent_fork.h:60-161 | the invariant of the gate holds in every state of every run |
| `ForkGate.NobodyInsideDuringFork` | src/snmalloc/ds_aal/prevent_fork.h:94-123 | from the return of `prefork` to the last postfork handler no other thread is inside a region |
| `ForkGate.OneForker` | src/snmalloc/ds_aal/prevent_fork.h:94-123 | at most one thread holds the gate |
| `ForkGate.CounterMeaning` | src/snmalloc/ds_aal/prevent_fork.h:60-161 | the counter is twice the counted threads plus the fork bit, and whoever is inside is counted or is the forker |
| `ForkGate.NoUnderflow` | src/snmalloc/ds_aal/prevent_fork.h:67-89 | no subtraction takes the counter below zero |
| `ForkProgress.EntersInThree` | src/snmalloc/ds_aal/prevent_fork.h:60-81 | while the fork bit is clear, an entering thread is inside after at most three steps of its own, however the others run |
| `ForkProgress.NeverStuck` | src/snmalloc/ds_aal/prevent_fork.h:60-161 | while some thread is in the middle of an operation, some thread can take a step that is no spin, or is inside a region, or holds the gate |
| `ForkProgress.RegionRoundTrip` | src/snmalloc/ds_aal/prevent_fork.h:60-89 | undisturbed, a region is entered in one step, and leaving it restores the state |
| `ForkProgress.ForkRoundTrip` | src/snmalloc/ds_aal/prevent_fork.h:94-161 | with nobody inside, `prefork` gets the gate in three steps, and `postfork_parent` restores the state |
| `ForkProgress.NestedHandlers` | src/snmalloc/ds_aal/prevent_fork.h:94-161 | handlers installed twice run twice, and only the last one opens the gate |
| `ForkProgress.ChildRoundTrip` | src/snmalloc/ds_aal/prevent_fork.h:127-143 | in the child the forking thread is alone and at rest with the counter at zero, whatever was counted at the fork |
| `RangeBlocks.RangeToPow2Blocks` | src/snmalloc/backend_helpers/range_helpers.h:7-36 | the blocks tile the aligned part of the range, each aligned to its own size, and no other such tiling has fewer |
| `RangeBlocks.GreedyMinimal` | src/snmalloc/backend_helpers/range_helpers.h:17-35 | taking the largest aligned block each time gives a shortest tiling |
| `RangeBlocks.BreaksAt` | src/snmalloc/backend_helpers/range_helpers.h:17-35 | every tiling has a seam where a larger aligned block would end |
| `RangeBlocks.NoAlignedPoint` | src/snmalloc/backend_helpers/range_helpers.h:10-13 | the pointer difference is not negative exactly if the range holds an aligned point |
| `RangeBlocks.WrapsBeyond` | src/snmalloc/backend_helpers/range_helpers.h:10-24 | without such a point the wrapped length is 2^64 less one smallest block, and the first block taken starts beyond the range |
| `RangeBlocks.TenBytes` | src/snmalloc/backend_helpers/range_helpers.h:10-24 | an instance: ten bytes at address 1 with 16 KiB blocks |
| `BuddySpec.BuddyIsXor` | src/snmalloc/backend_helpers/largebuddyrange.h:284-287 | the exclusive or with the size is the other half of the parent block |
| `BuddySpec.Family` | src/snmalloc/backend_helpers/largebuddyrange.h:284-292 | a block and its buddy make up their common parent, and each is the other's buddy |
| `BuddySpec.NullBuddy` | src/snmalloc/backend_helpers/largebuddyrange.h:284-287 | a block has the null address as its buddy exactly if its address is its size |
| `BuddySpec.ChainSafeWhen` | src/snmalloc/backend_helpers/buddy.h:152-179 | no block on the way of a merge has the null address as its buddy exactly if the block that comes out has not |
| `BuddySpec.MergeSound` | src/snmalloc/backend_helpers/buddy.h:152-179 | the grown block is aligned, contains the block added and all blocks merged, overlaps no remaining block and has no buddy left to merge with |
| `BuddySpec.MergeConserves` | src/snmalloc/backend_helpers/buddy.h:152-179 | merging neither loses nor invents a byte |
| `BuddySpec.MergeRespectsBoundary` | src/snmalloc/backend_helpers/largebuddyrange.h:327-338 | wherever two halves are merged, the upper one does not start at a boundary |
| `BuddySpec.KeptApart` | src/snmalloc/backend_helpers/largebuddyrange.h:327-338 | two free halves of a block have a boundary between them |
| `BuddySpec.AddedInv` | src/snmalloc/backend_helpers/buddy.h:152-205 | after an addition free blocks are aligned and disjoint, and no two free buddies may still merge |
| `BuddySpec.CarvedSound` | src/snmalloc/backend_helpers/buddy.h:239-257 | splitting a block down keeps the same invariant, and what is handed out overlaps no free block |
| `BuddySpec.CarvedConserves` | src/snmalloc/backend_helpers/buddy.h:239-257 | the free bytes shrink by exactly the block handed out |
| `BuddySpec.MergedPagesInv` | src/snmalloc/backend_helpers/largebuddyrange.h:255-263 | merging keeps every free block all committed or all decommitted as its flag says, and a block that has grown is committed |
| `BuddySpec.CarvedPagesInv` | src/snmalloc/backend_helpers/largebuddyrange.h:273-277 | so does splitting, which changes no page, and every part inherits the flag of the whole |
| `Buddy.NullBuddyFound` | src/snmalloc/backend_helpers/buddy.h:90-93 | the search of the cache finds a buddy that is not free exactly for a block at its own size and an empty slot |
| `BuddySpec.NullParent` | src/snmalloc/backend_helpers/buddy.h:152-179 | merged with a null buddy, a block would start at the null address |
| `Buddy.Buddy.RemoveBuddy` | src/snmalloc/backend_helpers/buddy.h:80-130 | the buddy leaves its bucket exactly if it is free and may merge; in addition a null buddy is reported, and nothing changes, exactly if its bucket is in use, may merge and has an empty slot |
| `Buddy.Buddy.AddBlock` | src/snmalloc/backend_helpers/buddy.h:152-205 | unless a null buddy is found for the block that comes out, the free blocks and flags become those of the merge, in the shared pagemap; the result is null or the block that grew to the limit, and the reported size is where the block landed |
| `Buddy.Buddy.TakeFrom` | src/snmalloc/backend_helpers/buddy.h:219-233 | a bucket gives up the greatest of its cached blocks and the least key of its tree, and nothing exactly if it is empty |
| `Buddy.Buddy.RemoveBlock` | src/snmalloc/backend_helpers/buddy.h:212-258 | null exactly if no free block is large enough, and then no bucket from there on is searched again; else the low end of a block of the least sufficient size, split down |
| `Buddy.Buddy.ForEachInBucket` | src/snmalloc/backend_helpers/buddy.h:269-286 | visits every free block of one size, each once |
| `BuddyRefill.MergeNear` | src/snmalloc/backend_helpers/largebuddyrange.h:606-631 | when all free blocks of 2^b bytes or more lie near a range, so does every block that grows from a block of the range: it sticks out by less than 2^b |
| `BuddyRefill.GreedyHasBig` | src/snmalloc/backend_helpers/range_helpers.h:17-35 | wherever an aligned block of 2^b bytes fits into the range, the loop emits one at least as large |
| `BuddyRefill.RangeServes` | src/snmalloc/backend_helpers/largebuddyrange.h:606-634 | if no free block has 2^b bytes, adding any range of at least twice that size, whatever its alignment and within the limit less twice 2^b, overflows nowhere and leaves a free block of 2^b bytes |
| `BuddyRefill.RefillServes` | src/snmalloc/backend_helpers/largebuddyrange.h:612-634 | in particular for every power of two above 2^b and below the limit, the sizes that are asked for |
| `BuddyRefill.RefillAtTheLimit` | src/snmalloc/backend_helpers/largebuddyrange.h:628-634 | at the limit itself an aligned range is one block that overflows, and nothing stays |
| `LargeBuddyRange.NullSafeChain` | src/snmalloc/backend_helpers/buddy.h:152-179 | if the bytes present never include all of a block at its own size, no merge meets the null address |
| `LargeBuddyRange.ElapsedMeans` | src/snmalloc/backend_helpers/largebuddyrange.h:502-506 | the wrapped subtraction says whether the decay time has passed since a reading, also when the 64-bit clock has gone around once |
| `LargeBuddyRange.AskedLeast` | src/snmalloc/backend_helpers/largebuddyrange.h:592-595 | the size asked of an aligned parent is the least power of two that covers the request, the smallest refill and the smaller of the total so far and the largest refill |
| `LargeBuddyRange.GradualGrowth` | src/snmalloc/backend_helpers/largebuddyrange.h:582-602 | for requests of one size from an empty start, the size asked for repeats once and then doubles up to the largest refill, until the total wraps |
| `LargeBuddyRange.DecommitKeeps` | src/snmalloc/backend_helpers/largebuddyrange.h:511-517 | a free block without the flag is wholly committed, so handing it back touches no page twice, and every block stays all committed or all decommitted |
| `LargeBuddyRange.LargeBuddyRange.HeldCommitted` | src/snmalloc/backend_helpers/largebuddyrange.h:674-695 | bytes in a caller's hands are committed and their block is not flagged |
| `LargeBuddyRange.LargeBuddyRange.MaybeSweepDecay` | src/snmalloc/backend_helpers/largebuddyrange.h:484-522 | when a sweep is due, exactly the blocks of buckets to which nothing was added for the decay time, in terms of the clock readings, join the decommitted ones; otherwise nothing changes |
| `LargeBuddyRange.LargeBuddyRange.AddRange` | src/snmalloc/backend_helpers/largebuddyrange.h:558-576 | the free blocks and the released ones are those of adding the shortest tiling of the range block by block; the bytes that blocks can cover become free or are released, each to one of them, whatever the alignment of the range |
| `LargeBuddyRange.LargeBuddyRange.RefillSizeWithin` | src/snmalloc/backend_helpers/largebuddyrange.h:592-595 | the exact size of a refill, as above; it lies between the request and the larger of the request and the largest refill |
| `LargeBuddyRange.LargeBuddyRange.RefillAlignedParent` | src/snmalloc/backend_helpers/largebuddyrange.h:578-604 | null changes nothing; otherwise what the parent gave is divided between the caller, the free blocks and what is released |
| `LargeBuddyRange.LargeBuddyRange.RefillUnalignedParent` | src/snmalloc/backend_helpers/largebuddyrange.h:606-642 | null exactly if the parent refuses every size from the first down to twice the request; otherwise the second request is served without asking the parent, nothing is released, and the usable part of what the parent gave is divided between the caller and the free blocks |
| `LargeBuddyRange.LargeBuddyRange.Refill` | src/snmalloc/backend_helpers/largebuddyrange.h:578-642 | both cases of the parent in one statement |
| `LargeBuddyRange.LargeBuddyRange.AllocRange` | src/snmalloc/backend_helpers/largebuddyrange.h:657-700 | null exactly if no free block is large enough and the parent refuses every size it is asked for; else an aligned, committed, unflagged block that nobody held, the low end of a free block of the least sufficient size or the refill's, and every byte is accounted for; a refill adds to the total and restarts the clocks of the buckets it fills; a sweep that is due has happened. The recursion through an unaligned refill is one deep |
| `LargeBuddyRange.LargeBuddyRange.DeallocRange` | src/snmalloc/backend_helpers/largebuddyrange.h:702-762 | the caller's bytes become free or go, committed, to the parent; without a decay time the block they landed in is decommitted as a whole, with one its bucket is touched; the flags are those of the merge and of a sweep exactly if one was due |
| `ExpMant.ClzConst` | src/snmalloc/ds_core/bits.h:153-168 | counts the leading zeros |
| `ExpMant.RoundsUp` | src/snmalloc/ds_core/bits.h:339-353 | the class of a value has that value rounded up to the local grain, and the class below is too small |
| `ExpMant.Adjoint` | src/snmalloc/ds_core/bits.h:311-371 | for any number of mantissa and low bits, a class is at least that of v exactly if its value is at least v |
| `ExpMant.RoundTrip` | src/snmalloc/ds_core/bits.h:311-371 | every class is the class of its own value |
| `Reciprocal.QuotientOf` | src/snmalloc/ds/sizeclasstable.h:218-220 | the high part of the product is the quotient whenever what the rounding adds, times the offset, is below the scale |
| `Reciprocal.DividesWhen` | src/snmalloc/ds/sizeclasstable.h:222-223 | under the same bound the low part of the product is below the multiplier exactly if the size divides the offset |
| `Reciprocal.ExcessSmall` | src/snmalloc/ds/sizeclasstable.h:218-223 | offsets up to scale / size meet the bound, and all offsets if the size divides the scale |
| `SizeClass.LastClass` | src/snmalloc/ds_core/sizeclassstatic.h:53-75 | the largest small class ends at the largest small size, or at the step if that is larger, and there the lookup table ends too |
| `SizeClass.ClassCount` | src/snmalloc/ds_core/sizeclassstatic.h:53-54 | the number of small classes: 2^mantissa for each doubling of the size |
| `SizeClass.TooManyClasses` | src/snmalloc/ds_core/sizeclassstatic.h:56-59 | a build with 256 classes passes the assertions, and the 8-bit counter stays below 256 after any number of increments |
| `SizeClass.LoopEndsWhen` | src/snmalloc/ds/sizeclasstable.h:415-438 | the 8-bit counter reaches the number of classes exactly if there are fewer than 256 |
| `SizeClass.MinimumInUse` | src/snmalloc/ds_core/sizeclassconfig.h:72-85 | in every legal build the smallest class in use exists and is the smallest multiple of the step that is at least the minimum allocation |
| `SizeClass.BuildLookup` | src/snmalloc/ds/sizeclasstable.h:400-439 | in every legal build the nested loops, with their 8-bit counter, end and give every small size the least class that fits, raised to the smallest class in use, and write no slot outside the table |
| `SizeClass.TableAgrees` | src/snmalloc/ds/sizeclasstable.h:400-456 | from the smallest allocation up that is the arithmetic map itself, in every legal build |
| `SlabCapacity.SlabHolds` | src/snmalloc/ds/sizeclasstable.h:193-200 | a slab holds the required number of objects and at least a chunk |
| `SlabCapacity.LargerElsewhere` | src/snmalloc/ds/sizeclasstable.h:193-212 | if a slab is larger than 2^n objects of its class but holds 2^n, and n is at least 2, a smaller class holds more than 2^n objects |
| `SlabCapacity.SlabFits` | src/snmalloc/ds/sizeclasstable.h:193-216 | in every legal build with three or more objects to a slab, no slab is larger than the power of two above the largest capacity times its object size |
| `SlabTable.BuildTable` | src/snmalloc/ds/sizeclasstable.h:180-239 | in every legal build that passes the assertion on the capacity: fills size, mask, capacity, waking threshold and both reciprocals of every small class, with the shift that the largest capacity leaves, and the entries of all large classes |
| `SlabTable.BoundsMet` | src/snmalloc/ds/sizeclasstable.h:180-245 | every offset into a slab of a small class meets the bounds of both reciprocals, and its index fits what the shift leaves |
| `SlabTable.SlabIndexExact` | src/snmalloc/ds/sizeclasstable.h:310-335 | `slab_index` is offset / size for every small class and address of every such build; the product does not overflow |
| `SlabTable.ObjectContains` | src/snmalloc/ds/sizeclasstable.h:337-344 | `start_of_object` is the start of the object that contains the address |
| `SlabTable.IsStartExact` | src/snmalloc/ds/sizeclasstable.h:356-374 | `is_start_of_object` holds exactly if the size divides the offset |
| `SlabTable.SlabHoldsCapacity` | src/snmalloc/ds/sizeclasstable.h:198-200 | the free list of a new slab has as many objects as the capacity in the table, for every small class |
| `SlabTable.WakingIs` | src/snmalloc/ds/sizeclasstable.h:202-204 | the threshold is a quarter of the capacity rounded down, and without larger thresholds at most 32 |
| `SlabTable.BuiltConfigurations` | src/snmalloc/ds_core/sizeclassconfig.h:52-64 | the default steps with either pair of chunk and small sizes, and 4 or 13 objects, are such builds, with 44 or 56 classes and shifts of 54 or 51 |
| `SlabTable.LargeObject` | src/snmalloc/ds/sizeclasstable.h:226-239 | for a large class the same code gives the address rounded down to the size, and tells multiples of the size; class 0 is the whole address space |
| `Rounding.AlignedSizeIs` | src/snmalloc/ds/sizeclasstable.h:514-549 | `aligned_size` rounds up to the alignment, gives the largest word when that overflows and zero for zero |
| `Rounding.RoundedIsAligned` | src/snmalloc/ds/sizeclasstable.h:478-549 | in every legal build, up to 2^63 the rounded size is at least the request, and a multiple of the alignment exactly unless the request falls below the smallest class in use and the size of that is no multiple |
| `Rounding.RoundSizeSettles` | src/snmalloc/ds/sizeclasstable.h:478-502 | in every legal build rounding never goes down, leaves alone what is too large, gives an empty request the smallest class in use, and repeats itself |
| `Rounding.AlwaysServesWhen` | src/snmalloc/ds/sizeclasstable.h:478-549 | a legal build meets every alignment exactly if the size of the smallest class in use is a power of two |
| `Rounding.MinimumOf48Breaks` | src/snmalloc/ds/sizeclasstable.h:478-549 | with a minimum allocation of 48 bytes, 32 bytes aligned to 32 become 48, which is no multiple of 32 |
| `Rounding.MinimumOf80Breaks` | src/snmalloc/ds/sizeclasstable.h:478-549 | with three intermediate bits and a minimum of 80 bytes, 64 bytes aligned to 64 become 80, which is no multiple of 64 |
| `Rounding.ObjectsAligned` | src/snmalloc/ds/sizeclasstable.h:337-344 | in every such build every object of a class whose size is a multiple of the alignment starts at an aligned address |
| `Rounding.LargeObjectsAligned` | src/snmalloc/ds/sizeclasstable.h:467-476 | a size that is not small has the large class of its rounded size, whose objects meet every alignment that size meets |
| `Slab.LocalEntropy.Sample` | src/snmalloc/mem/entropy.h:132-141 | the sample is below n and is the draw itself or its mirror, for any words the generator gives |
| `Slab.DrawsOf` | src/snmalloc/mem/entropy.h:123-141 | every number below n comes from the draw equal to it and from its mirror at the end of the range, and from no other |
| `Slab.LocalEntropy.NextFreshBits` | src/snmalloc/mem/entropy.h:110-121 | the low n bits, cut to 16, of what was left if that was more than n bits, else of a new word; the other bits and their number are what stays |
| `Slab.ShuffleReaches` | src/snmalloc/mem/corealloc.h:953-982 | every cyclic order of the objects comes out for some sequence of draws |
| `Slab.ShuffleInjective` | src/snmalloc/mem/corealloc.h:953-982 | and for one sequence only |
| `Slab.NewSlab.LinkCycle` | src/snmalloc/mem/corealloc.h:961-982 | the links in memory form one cycle through all objects that fit, the one the draws determine |
| `Slab.NewSlab.Traverse` | src/snmalloc/mem/corealloc.h:986-1002 | one turn around a cycle, although each object is overwritten as soon as it is in the list, with what the list writes there at the end |
| `Slab.NewSlab.AllocShuffled` | src/snmalloc/mem/corealloc.h:945-1003 | the list holds each object of the slab exactly once, slab size / object size in all |
| `Slab.NewSlab.AllocSequential` | src/snmalloc/mem/corealloc.h:1004-1020 | the same objects in address order |
| `Wire.WriteVarint` | snmalloc-rs/src/pprof.rs:97-104 | appends the base-128 form of the number |
| `Wire.VarintRoundTrip` | snmalloc-rs/src/pprof.rs:97-104 | reading it gives the number and leaves what follows |
| `Wire.VarintLength` | snmalloc-rs/src/pprof.rs:97-104 | a 64-bit number takes at most ten bytes |
| `Wire.PackedRoundTrip` | snmalloc-rs/src/pprof.rs:133-162 | packed numbers are read back |
| `Wire.WritePacked` | snmalloc-rs/src/pprof.rs:138-162 | writes one record, and nothing for an empty list |
| `Wire.RoundTrip` | snmalloc-rs/src/pprof.rs:106-131 | parsing any message gives its fields back |
| `Wire.KnownBytes` | snmalloc-rs/src/pprof.rs:97-131 | two records as the definition of the encoding spells them out |
| `Pprof.StringTable.Intern` | snmalloc-rs/src/pprof.rs:183-194 | equal strings share an index, which is the position cut to 32 bits; positions are stable, a new string is the last one, and position 0 is empty |
| `Pprof.IndexLeadsBack` | snmalloc-rs/src/pprof.rs:183-194 | every index leads back to its string exactly if there are at most 2^32 strings |
| `Pprof.HexAddrInjective` | snmalloc-rs/src/pprof.rs:197-204 | the name given to a frame determines its address |
| `Pprof.HexAddrReads` | snmalloc-rs/src/pprof.rs:197-204 | the name is "0x" and sixteen hexadecimal digits that read as the address |
| `Pprof.WeightIs` | snmalloc-rs/src/pprof.rs:388-402 | the bytes of a sample: its weight, or the weight times allocated over requested size rounded down, and zero for an empty request |
| `Pprof.NoSaturation` | snmalloc-rs/src/pprof.rs:388-402 | the byte weight of a sample is the exact quotient |
| `Pprof.SampleReads` | snmalloc-rs/src/pprof.rs:333-336 | a sample message is read back, with or without frames |
| `Pprof.LocationReads` | snmalloc-rs/src/pprof.rs:305-314 | so is a location with its line |
| `Pprof.FunctionReads` | snmalloc-rs/src/pprof.rs:293-299 | so is a function |
| `PprofWriter.FrameIndex.AddFrame` | snmalloc-rs/src/pprof.rs:266-315 | an address seen before changes nothing; a new one gets the next location, the next function and the next string, and the messages of all three |
| `PprofWriter.OneAddressPerLocation` | snmalloc-rs/src/pprof.rs:265-316 | different addresses have different locations |
| `PprofWriter.WeightRecovered` | snmalloc-rs/src/pprof.rs:330-330 | the byte weight survives the cut to 64 bits exactly if it fits a signed word |
| `PprofWriter.WritePprof` | snmalloc-rs/src/pprof.rs:241-386 | the bytes are readable, and exactly if at most 2^32 - 5 different frames occur they give every sample in order with its two values and, for each frame, a location with the address less the load bias, or null below it, and a function named by the raw address; ids count from one, one location and function per distinct address, string 0 empty |

## Left out

- Weak memory ordering, and sleeping on an address in the combining lock: only the spinning wait is modelled.
- RBTree.RBTree.RemovePath: for fewer than 2^62 keys, the number for which the path is shown to fit its array; the trees of the buddy allocator always have fewer.
- The low bits of a pagemap entry's words that are reserved to the front end: the handle masks them on reading and keeps them on writing, and the words here are what it shows.
- The histogram counters of the buddy allocator, and its use by `SmallBuddyRange`, whose hooks do nothing.
- LargeBuddyRange.LargeBuddyRange.MaybeSweepDecay: the range is one that manages committed memory; in one operation all restarted clocks get the same reading, and the decay time is read once.
- The abort on overflow of a range that covers the whole address space.
- 32-bit division.
- Slab.LocalEntropy.Sample: the generator is any source of words; its period is not considered.
- The free-list queue that receives the objects of a new slab, with its key and its two random halves.
- PprofWriter.WritePprof: frames without symbol names; symbolised names, the load bias itself and errors of the output stream are not modelled.
- The rest of the allocator (remote deallocation, the front end, statistics, platform layers, capability bounds), profiling reports and tools.
