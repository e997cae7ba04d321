# The kernel's memory and boot structures, verified

A Dafny model of the memory management of a small 64-bit kernel and of the boot-time structures
it is set up from, with proofs of what they keep. Each component is modelled twice where the
kernel changes state in place: as steps on values, about which the theorems are proved, and as a
class whose methods do what the code does to its fields and arrays and are proved to take those
steps. The code is modelled as it is written. Where it departs from its comments, the model keeps
the code, a lemma names a case, and another says exactly when the code does what is intended.

`dafny verify dfyconfig.toml` checks everything.

## What is modelled

- **Words and logarithms** (`Words`, `Bits64`): shifts, masks and logarithms on natural numbers,
  and the 64-bit bit tricks that compute them. Interleaving does not ignore the upper half of its
  arguments as documented; the exact condition is stated.
- **Circular lists** (`Rings`): the doubly linked lists that live inside free blocks and slabs.
- **The buddy page allocator** (`BuddyPool`, `BuddyOrder`, `BuddyInit`, `BuddyRuns`, `BuddyIntent`,
  `BuddyMetadata`, `BuddyAllocator`, `BuddyDepartures`): free lists per level, one flag bit per pair
  of buddies, checksummed nodes in the blocks, greedy initialisation, splitting, merging, and whole
  runs of requests. Sizes and addresses are counted in pages; the number of levels and the base are
  parameters. `BuddyIntent` moves the head of a list to the successor, as the comment intends, and
  proves the allocator complete over every run. Three departures are kept and delimited: taking the
  head off a list of two or more loses the rest of the list, after which an allocation can fail and
  a free can panic; merging the last two top-level blocks of a pair loses both; and buddies are
  counted from the base when freeing but absolutely when splitting, so the base must be a multiple
  of the largest block for the rest to hold. Each has its exact condition, and for the first two a
  run reaches it from a new allocator with any number of levels.
- **The slab manager** (`SlabGeometry`, `SlabPool`, `SlabManager`): three rings of slabs, a chain
  of free objects in each, counters, and the return of unused slabs. Returning them panics when
  there are none, because the null node is dereferenced before the list is tested, and with two or
  more accesses slabs it has already returned.
- **Bundles and core caches** (`CoreCaches`, `CoreCacheRuns`, `CoreCacheDepartures`,
  `CoreCacheAllocator`, `ObjectAllocator`): any number of cores stepped in any order, each step
  being what a core does between two lock operations, on top of the slab pool. Two branches of the
  written code leave a bundle in two places; the documented exchanges never do. Both variants are
  modelled, the difference is exactly those branches, and a run of the written code from the start
  hands one object to two cores.
- **The hash map and the core index** (`Probing`, `HashTable`, `CoreIndex`): quadratic probing in a
  table of prime size, the map as a finite map, and the agreement of the hashed and the linear
  lookup of a core. The result of inserting a core's id is ignored by the code; below 195 cores the
  insertion cannot fail, and beyond that agreement holds exactly while it does not.
- **The spin lock** (`SpinLock`): load-exclusive, store-exclusive and release instructions with
  exclusive monitors.
- **Page tables** (`PageWalk`, `PageFill`, `PageAstray`, `PageTables`): the four-level walk (section
  D8.3 of the Arm Architecture Reference Manual, DDI 0487) and the compact and granular fills, with
  tables taken from the page allocator. The fills are modelled as written on every range, and from a
  zeroed root they map exactly the range if and only if it fits the strategy and, for the compact
  one, its memory is aligned like its pages. A compact fill that finds nothing to fill before the
  end of the range repeats that step for ever: the outcome `Endless` stands for it. Ranges are
  counted in pages of the 48-bit address space.
- **The devicetree reader** (`DeviceTree`, `DeviceTreeReads`, `DeviceTreeSample`, `DtbReader`): a
  writer of trees as tokens and bytes (sections 5.4.1 and 5.4.2 of the Devicetree Specification),
  the reader's loops over arbitrary bytes, and a tree given byte by byte. The specification allows
  no-operation tokens before the root; the scan rejects them.
- **Range sets and zone set-up** (`Ranges`, `RangeSets`, `ZoneSetup`): ordered tagged ranges with
  exclusion, zone bounds, and the metadata taken from the end of a linear range. Splitting needs a
  free place in the set even when one part is empty.

## How the code's ways of failing are modelled

A failed assertion, an unwrapped `None`, an overflow and an explicit panic all read as a result of
`None`, `Panic` or `false`; the state afterwards is then not described. An overflow panics only in a
build with overflow checks: the development profile has them and the release profile does not
(Cargo.toml:8-12 changes neither default). It matters in one place, the cut at the highest address in
`Ranges`, `RangeSets` and `ZoneSetup`: a release build gets an empty range there, which is trimmed,
and goes on (`Ranges.WrappedCutMeans`). Memory that the code reaches through addresses is a map from
addresses to what is stored there. What the page allocator, the slabs of bundles or a caller provides
is a parameter, required only to be unused.

## Model

| member | source | states |
|---|---|---|
| Words.Division | src/support/bits.rs:51-53 | on numbers, the recursive shift, rounding and divisibility used everywhere are division, rounding down and divisibility by a power of two |
| Words.PowerOfTwo | src/support/bits.rs:107-111 | n & (n - 1) is zero exactly for powers of two |
| Words.AndMask | src/mm/page_allocator.rs:434 | x & (block size - 1) is zero exactly when x is a multiple of the block size |
| Words.AndPow2 | src/mm/page_allocator.rs:448 | testing one bit of a flag word |
| Words.FlipBit | src/mm/page_allocator.rs:712 | flipping one bit of a flag word changes no other bit |
| Words.FloorLog2 | src/arch/common/bits/bits64.rs:43-53 | the floor of the logarithm: 2^l <= n < 2^(l+1) |
| Words.CeilLog2 | src/arch/common/bits/bits64.rs:64-78 | the ceiling of the logarithm: the least l with n <= 2^l |
| Words.LowestBit | src/support/bits.rs:122-124 | on numbers, the exponent of the largest power of two that divides a page number |
| Words.AlignDownByMask | src/support/bits.rs:51-53 | addr & !(boundary - 1), in words of any width, is rounding down to a multiple of a power-of-two boundary |
| Words.LowestBitByMask | src/support/bits.rs:122-124 | n & (!n + 1), in words of any width, keeps exactly the lowest set bit, and its logarithm is the position of that bit |
| Bits64.SmearFills | src/arch/common/bits/bits64.rs:44-50 | or-ing a word with its shifts by 1, 2, 4, 8, 16 and 32 sets exactly the bits up to its highest |
| Bits64.FloorLog2Is | src/arch/common/bits/bits64.rs:43-53 | on 64-bit words, the smear-and-count trick gives the index of the highest set bit |
| Bits64.CeilLog2Is | src/arch/common/bits/bits64.rs:64-78 | the ceiling is one more than the floor unless only one bit is set |
| Bits64.InterleaveUndoesCompact | src/arch/common/bits/bits64.rs:96-122 | interleaving the odd and the even bits of any word gives the word back |
| Bits64.CompactUndoesInterleaveIff | src/arch/common/bits/bits64.rs:139-165 | compacting an interleaved pair gives the lower halves back exactly when the bits 32 to 47 that are set in either word are also set 16 places lower, so always for half words; the documentation says the upper half is ignored, and it is not |
| Bits64.UpperBitReadsBack | src/arch/common/bits/bits64.rs:139-165 | a concrete case: bit 32 alone reads back as bit 16 |
| Rings.PushTailConsistent | src/mm/page_allocator.rs:615-649 | adding to the tail keeps next and prev mutually inverse permutations |
| Rings.PushTailAppends | src/mm/page_allocator.rs:615-649 | adding to the tail appends to the list walked from the head |
| Rings.UnlinkConsistent | src/mm/page_allocator.rs:676-713 | removal as written keeps next and prev mutually inverse, even where it loses the head |
| Rings.UnlinkAdvanceRemoves | src/mm/page_allocator.rs:704 | with the head moved to the successor, as the comment intends, a removal takes exactly that node out of the list |
| Rings.UnlinkMeetsIntentIff | src/mm/page_allocator.rs:697-706 | removal as written does what its comment intends exactly when the node is not the head of a longer list |
| BuddyPool.BuddyByXor | src/mm/page_allocator.rs:459 | xor of the offset with the block size finds the buddy, the other half of the pair counted from the base |
| BuddyPool.AllocateSafe | src/mm/page_allocator.rs:384-408 | the block handed out starts the first block of the lowest sufficient level that has one, was wholly free, is aligned and inside the area, and no other page changes hands |
| BuddyPool.SplitEffect | src/mm/page_allocator.rs:567-607 | splitting lists exactly the odd halves: every page of the block stays free but for the part handed out |
| BuddyPool.CoalesceEffect | src/mm/page_allocator.rs:442-462 | freeing makes exactly the freed pages free, except that a completed pair of top-level blocks leaves the lists |
| BuddyPool.DroppedIff | src/mm/page_allocator.rs:442-462 | free drops memory exactly when it completes an aligned pair of top-level blocks |
| BuddyPool.FreeKeepsCoalesced | src/mm/page_allocator.rs:442-462 | free leaves no two buddies below the top level listed |
| BuddyPool.AllocateKeepsCoalesced | src/mm/page_allocator.rs:384-408 | neither does an allocation |
| BuddyPool.RunInOneBlock | src/mm/page_allocator.rs:442-462 | in a coalesced pool every aligned run of free pages lies inside one listed block |
| BuddyPool.CanonicalForm | src/mm/page_allocator.rs:442-462 | a block is listed exactly when it is a maximal aligned run of free pages: the lists are determined by the free pages |
| BuddyPool.SameFreePagesSameLists | src/mm/page_allocator.rs:442-462 | two coalesced pools with the same free pages list the same blocks |
| BuddyOrder.AllocateCompleteIfIntact | src/mm/page_allocator.rs:384-408 | with every list intact, allocation fails exactly when no aligned run of 2^k pages is free |
| BuddyOrder.AllocateNoneIff | src/mm/page_allocator.rs:384-398 | for any lists, coalesced or not, allocation fails exactly when it asks for more than the largest block or no sufficient level has a head |
| BuddyOrder.AllocateFailsIff | src/mm/page_allocator.rs:384-408 | for coalesced lists, reachable or not, allocation fails though a block suffices exactly when every sufficient level has lost its head |
| BuddyOrder.AllocateKeepsIntactIff | src/mm/page_allocator.rs:384-408 | an allocation keeps every list intact exactly when the list it takes from has one block |
| BuddyOrder.FreeKeepsIntactIff | src/mm/page_allocator.rs:422-466 | with intact lists free never panics, and keeps them intact exactly when no buddy it merges with heads a longer list |
| BuddyOrder.FreePanicsIff | src/mm/page_allocator.rs:442-462 | with any lists, merging panics exactly when a buddy it would merge with is a list of one that no head points to |
| BuddyInit.FillEffect | src/mm/page_allocator.rs:487-520 | cutting one range lists blocks that cover its pages exactly once, each as large as alignment, the rest and the top level allow |
| BuddyInit.Initial | src/mm/page_allocator.rs:477-522 | after initialisation exactly the offered pages are free, each block cut from one range and naturally aligned |
| BuddyInit.InitialStep | src/mm/page_allocator.rs:483-520 | one more range extends the lists by the blocks cut from it |
| BuddyInit.NoBuddiesFromOneRange | src/mm/page_allocator.rs:483-520 | two buddies below the top level are never both cut from one range |
| BuddyInit.InitialCoalescedIff | src/mm/page_allocator.rs:483-520 | the initial lists are maximally coalesced exactly when every aligned run of offered pages lies in one range |
| BuddyRuns.AcceptableTests | src/mm/page_allocator.rs:427-438 | the four assertions of free, on words, are what the model calls acceptable |
| BuddyRuns.AcquireSafe | src/mm/page_allocator.rs:384-408 | the block handed out is disjoint from everything handed out, available, aligned, and less than twice the request; the counters move by its size |
| BuddyRuns.ReleaseSafe | src/mm/page_allocator.rs:422-466 | a legal free that does not panic takes exactly the block's pages back and moves both counters by its size |
| BuddyRuns.ReleasePanicsIff | src/mm/page_allocator.rs:422-466 | in every safe state a legal free panics exactly when its arguments fail the assertions or merging meets a buddy that no head points to |
| BuddyRuns.EveryRunSafe | src/mm/page_allocator.rs:384-466 | in every run that frees only what is handed out, live blocks and free blocks are disjoint parts of the available pages and the counters agree |
| BuddyRuns.StepLosesIff | src/mm/page_allocator.rs:422-466 | a request loses memory exactly when it frees the last pages of an aligned pair of top-level blocks |
| BuddyRuns.EveryRunCoalesced | src/mm/page_allocator.rs:384-466 | where no top-level pair is wholly available, no run loses memory or leaves two buddies listed: free pages are exactly the available ones not handed out, and their number is the counter |
| BuddyRuns.StartSafe | src/mm/page_allocator.rs:477-522 | the state initialisation builds is safe, nothing is handed out or lost, and its counter is the size of the ranges |
| BuddyRuns.ConstructedStarts | src/mm/page_allocator.rs:300-366 | what a new allocator shows is such a state, for the pages of its ranges |
| BuddyRuns.FreeingEverythingRestores | src/mm/page_allocator.rs:384-522 | freeing everything restores exactly the blocks initialisation listed |
| BuddyRuns.ReleaseUndoesAcquire | src/mm/page_allocator.rs:384-466 | a block handed out passes the assertions of free, and giving it back at once, unless that panics, restores counters, live pages and exactly the blocks listed before, or loses a completed top-level pair |
| BuddyRuns.StepIntactIff | src/mm/page_allocator.rs:384-466 | with lists intact an acceptable request never panics, allocation fails exactly for want of an aligned free run, and the lists stay intact exactly when the request takes no head off a longer list |
| BuddyIntent.AllocateSame | src/mm/page_allocator.rs:384-408 | with the head moved to the successor, allocation from reachable lists takes the same block, leaves the same links and keeps every list reachable |
| BuddyIntent.CoalesceSame | src/mm/page_allocator.rs:442-462 | so does freeing, and neither variant panics |
| BuddyIntent.StepSame | src/mm/page_allocator.rs:384-466 | from reachable lists, the intended step replies as the written one and panics only on an unacceptable free |
| BuddyIntent.EveryRunAsIntended | src/mm/page_allocator.rs:384-466 | with the head moved as the comment intends and no wholly available top-level pair, every run keeps all lists reachable and coalesced, loses nothing, and an allocation fails exactly when no aligned run of free pages is large enough |
| BuddyIntent.InitialIntact | src/mm/page_allocator.rs:477-522 | the lists initialisation builds are all reachable |
| BuddyIntent.FromStartAsIntended | src/mm/page_allocator.rs:384-522 | from the start all of this holds, and freeing everything restores exactly the initial blocks |
| BuddyMetadata.FlagInSlice | src/mm/page_allocator.rs:133-143 | a block inside the area has its flag word in its own level's slice, inside the metadata |
| BuddyMetadata.EveryWordUsed | src/mm/page_allocator.rs:171-176 | the metadata has no word too many: each word holds the flag of some block of the area |
| BuddyMetadata.FlippedWord | src/mm/page_allocator.rs:712 | a flag word stays below 2^64 when a flag is flipped |
| BuddyMetadata.SharedFlagIff | src/mm/page_allocator.rs:540-549 | two blocks share a flag bit exactly when they are equal or buddies |
| BuddyMetadata.FlipShows | src/mm/page_allocator.rs:648 | flipping the bit when a block is listed or unlisted keeps every pair's bit the exclusive or of its two halves being listed |
| BuddyMetadata.FlagTellsBuddy | src/mm/page_allocator.rs:448 | the single bit test of free is set exactly when the buddy is listed at that level |
| BuddyMetadata.UpdatedVerifies | src/mm/page_allocator.rs:42-53 | a node verifies after its checksum is updated, though the two fold the links in different orders |
| BuddyMetadata.ChecksumDetects | src/mm/page_allocator.rs:42-53 | a change to one word of a valid node makes it fail the check; the two links changing places does not |
| BuddyAllocator.PageAllocator.MakeLevels | src/mm/page_allocator.rs:133-143 | each level's offset is where the model puts it, which the flags of the level below fill and no more |
| BuddyAllocator.PageAllocator.CalcMetadataSize | src/mm/page_allocator.rs:110-121 | the metadata size computed beforehand is the size the levels use: the words the flags need and no more |
| BuddyAllocator.PageAllocator.constructor | src/mm/page_allocator.rs:300-366 | the new allocator holds the blocks of the available ranges in its lists, flags and nodes, and shows a start state of the runs; the base is a multiple of the largest block and ranges are whole pages |
| BuddyAllocator.PageAllocator.InitMetadata | src/mm/page_allocator.rs:477-522 | the flags are cleared and every range's blocks listed |
| BuddyAllocator.PageAllocator.InitRange | src/mm/page_allocator.rs:484-520 | one range is cut into the blocks the model lists |
| BuddyAllocator.PageAllocator.GetFlagIndexAndBit | src/mm/page_allocator.rs:540-549 | the flag word and bit of a block, inside the metadata |
| BuddyAllocator.PageAllocator.AddToList | src/mm/page_allocator.rs:615-649 | heads, flags and nodes in memory show the block appended to the tail |
| BuddyAllocator.PageAllocator.RemoveFromList | src/mm/page_allocator.rs:676-713 | they show the block taken off, or the removal panics, exactly as the model's |
| BuddyAllocator.PageAllocator.PopFromList | src/mm/page_allocator.rs:664-668 | the head is taken off its list |
| BuddyAllocator.PageAllocator.SplitFreeBlock | src/mm/page_allocator.rs:567-607 | the head of a level is popped and its odd halves listed level by level |
| BuddyAllocator.PageAllocator.LowestLevel | src/mm/page_allocator.rs:392-395 | the search finds the lowest level with a head |
| BuddyAllocator.PageAllocator.TakeBlock | src/mm/page_allocator.rs:392-398 | the state after the search and the split is the model's allocation |
| BuddyAllocator.PageAllocator.Acquire | src/mm/page_allocator.rs:384-408 | allocate refines the model's step: same block, same new lists and counters |
| BuddyAllocator.PageAllocator.CheckArguments | src/mm/page_allocator.rs:427-438 | the assertions of free, computed on words |
| BuddyAllocator.PageAllocator.CoalesceBlock | src/mm/page_allocator.rs:442-462 | the merging loop leaves the model's lists, or panics as it does |
| BuddyAllocator.PageAllocator.Free | src/mm/page_allocator.rs:422-466 | free refines the model's step |
| BuddyDepartures.StrandedPage | src/mm/page_allocator.rs:697-706 | a run for any number of levels: with two one-page blocks on a list, the second allocation fails although a page is free |
| BuddyDepartures.FreeingPanics | src/mm/page_allocator.rs:683-686 | a run for any number of levels: freeing the first page again then panics, its buddy being a list of one without a head |
| BuddyDepartures.MergedPairLost | src/mm/page_allocator.rs:442-462 | a run for any number of levels: with three top-level blocks, allocating and freeing the first loses it and its buddy, though they are counted as free |
| BuddyDepartures.MergedNaturallyAlignedIff | src/mm/page_allocator.rs:459 | merged blocks are naturally aligned exactly when the base is a multiple of the merged size |
| BuddyDepartures.MisalignedMerge | src/mm/page_allocator.rs:434 | a concrete case: with base 1 two pages merge to a block that free would refuse |
| SlabGeometry.NewIsProper | src/mm/slab_allocator.rs:177-193 | the slab is the smallest power of two of pages that holds seven objects and the node, which ends it; no more objects would fit; the assertion on its size fails exactly when they do not fit in the largest block |
| SlabPool.ObjectNode | src/mm/slab_allocator.rs:437-440 | rounding an object's address down to the slab size finds its own slab's node and no other |
| SlabPool.DifferentObjectsApart | src/mm/slab_allocator.rs:535-550 | different objects, of one slab or of two, do not overlap in memory, and none reaches its slab's node |
| SlabPool.SafeApart | src/mm/slab_allocator.rs:359-470 | so for all objects handed out in a safe state |
| SlabPool.TakeSafe | src/mm/slab_allocator.rs:359-403 | an allocation hands out an object that was free and overlaps no other handed out; it fails exactly when no slab has one and none is given; the first slab in use serves, then the first unused one, and a new slab is taken only when no other has an object |
| SlabPool.GiveSafe | src/mm/slab_allocator.rs:431-470 | freeing panics exactly when the object is already free, and otherwise takes back just that object |
| SlabPool.SweepSafe | src/mm/slab_allocator.rs:477-510 | returning the unused slabs loses no object that is handed out |
| SlabPool.ReturnedOnce | src/mm/slab_allocator.rs:484-507 | though each iteration returns the successor's slab, every unused slab is returned exactly once |
| SlabPool.AccessedReturnedIff | src/mm/slab_allocator.rs:484-507 | every iteration but the first reads and poisons the node of the slab that the one before it returned: no returned slab is accessed exactly when there is only one |
| SlabPool.SecondOfTwo | src/mm/slab_allocator.rs:484-507 | with two slabs, the second is returned, then read and poisoned, and then the first is returned |
| SlabPool.CountsAgree | src/mm/slab_allocator.rs:154-165 | objects handed out and available add up to the slabs times the objects per slab |
| SlabPool.EveryRunSafe | src/mm/slab_allocator.rs:359-510 | every run keeps each slab on the one list its free count calls for, each object free or handed out, and the memory of objects handed out apart; the next call panics exactly on a second free or on returning unused slabs when there are none |
| SlabManager.PoisonTells | src/mm/slab_allocator.rs:455-456 | the poison word tells exactly whether an object is handed out |
| SlabManager.ChecksumDetects | src/mm/slab_allocator.rs:102-124 | a change to one word of a valid slab node makes it fail the check |
| SlabManager.Manager.constructor | src/mm/slab_allocator.rs:177-206 | a new manager has no slabs |
| SlabManager.Manager.AddSlabToTail | src/mm/slab_allocator.rs:232-261 | the ring in memory is the old one with the slab appended |
| SlabManager.Manager.RemoveSlabFromList | src/mm/slab_allocator.rs:269-303 | the ring in memory is the old one without the slab, the head moved to the successor |
| SlabManager.Manager.InitSlab | src/mm/slab_allocator.rs:535-550 | a new slab's node and free chain list every object once |
| SlabManager.Manager.PromoteUnused | src/mm/slab_allocator.rs:362-366 | the first unused slab becomes the in-use list when that is empty |
| SlabManager.Manager.AllocSlab | src/mm/slab_allocator.rs:369-372 | a given slab joins the in-use list and the counters if none is in use |
| SlabManager.Manager.TakeObject | src/mm/slab_allocator.rs:379-402 | the first free object of the first slab in use is unchained, poisoned and handed out |
| SlabManager.Manager.Alloc | src/mm/slab_allocator.rs:359-403 | alloc refines the model's step, counters included |
| SlabManager.Manager.PutObject | src/mm/slab_allocator.rs:452-459 | an object that is poisoned goes to the front of its slab's chain; one that is not makes the kernel panic |
| SlabManager.Manager.ReopenSlab | src/mm/slab_allocator.rs:447-450 | a slab with no free objects goes to the in-use list |
| SlabManager.Manager.RetireSlab | src/mm/slab_allocator.rs:462-465 | a slab with all objects free goes to the unused list |
| SlabManager.Manager.Free | src/mm/slab_allocator.rs:431-470 | free refines the model's step, counters included |
| SlabManager.Manager.FreeUnused | src/mm/slab_allocator.rs:477-510 | it panics exactly on an empty list, and otherwise accesses the slabs in list order and returns them in successor order, leaves the other rings alone and lowers the counters by the ring's share; a returned slab is accessed exactly when there are two or more |
| CoreCaches.PopPlaced | src/mm/slab_allocator.rs:826-831 | popping a bundle keeps every bundle and object in exactly one place |
| CoreCaches.PushPlaced | src/mm/slab_allocator.rs:843-847 | so does pushing one |
| CoreCacheRuns.FullExchanged | src/mm/slab_allocator.rs:961-963 | the documented exchange of an empty standby bundle for a full one conserves bundles and objects |
| CoreCacheRuns.EmptyExchanged | src/mm/slab_allocator.rs:1048-1050 | so does the documented exchange of a full standby bundle for an empty one |
| CoreCacheRuns.StepConserves | src/mm/slab_allocator.rs:978-1110 | every step of every core, with the exchanges as documented, conserves bundles and objects, hands out only an object nobody held, and does not panic |
| CoreCacheRuns.TakeAsksSlabIff | src/mm/slab_allocator.rs:1001-1026 | a core asks the slabs exactly when neither of its bundles has an object and no bundle is full, and turns to the lists only when its own bundles have none |
| CoreCacheRuns.PutAsksSlabIff | src/mm/slab_allocator.rs:1075-1109 | an object goes back to its slab exactly when neither of the core's bundles can take it and there is no empty one |
| CoreCacheRuns.FreedLastTakenFirst | src/mm/slab_allocator.rs:826-847 | what a core has put in its bundles last, it takes first |
| CoreCacheRuns.BundlesFilled | src/mm/slab_allocator.rs:985-999 | a core keeps the bundles it has, and lacks one after looking for it exactly when no empty one was listed and none was given |
| CoreCacheRuns.NewBundleIff | src/mm/slab_allocator.rs:637-656 | a new bundle is taken exactly when no empty one is listed and one is given |
| CoreCacheRuns.SameUnlessDeparts | src/mm/slab_allocator.rs:978-1110 | outside two branches the written code takes the documented steps |
| CoreCacheRuns.FullExchangeDeparts | src/mm/slab_allocator.rs:1018-1021 | giving back the current bundle but overwriting the standby leaves a bundle in two places, or loses one; the next core to allocate a bundle shares it |
| CoreCacheRuns.EmptyExchangeDeparts | src/mm/slab_allocator.rs:1093-1101 | a failed exchange leaves the standby in two places |
| CoreCacheRuns.WrittenStepConservesIff | src/mm/slab_allocator.rs:978-1110 | a step of the written code conserves bundles and objects exactly when it takes neither branch |
| CoreCacheRuns.SharedBundleHandsOutTwice | src/mm/slab_allocator.rs:826-847 | two cores that share a bundle both get the object freed last; CoreCacheDepartures.SameObjectTwice reaches such a state |
| CoreCacheRuns.StartConserved | src/mm/slab_allocator.rs:884-893 | a new allocator conserves, with no bundles and no objects out |
| CoreCacheRuns.EveryRunConserves | src/mm/slab_allocator.rs:978-1110 | over every interleaving of the cores, every object given out by the slabs is held by one caller or sits in one slot of one bundle, every bundle is in one place, objects held do not overlap in memory, and no step panics |
| CoreCacheDepartures.ManyTaken | src/mm/slab_allocator.rs:978-1027 | from the start, one core can come to hold any number of objects, through steps outside the two branches |
| CoreCacheDepartures.BothFull | src/mm/slab_allocator.rs:1069-1110 | and, by freeing 32 of them, to have both its bundles full |
| CoreCacheDepartures.PutDepartureReached | src/mm/slab_allocator.rs:1093-1101 | 33 allocations and 33 frees by one core reach the branch that finds no empty bundle for a full standby |
| CoreCacheDepartures.TakeDepartureReached | src/mm/slab_allocator.rs:1018-1021 | 33 frees by one core and the first allocation by another reach the branch that overwrites the standby |
| CoreCacheDepartures.SameObjectTwice | src/mm/slab_allocator.rs:978-1110 | from the start, a run of the written code ends with two cores handed the same object one after the other |
| CoreCacheAllocator.SlabAllocator.ReturnBundle | src/mm/slab_allocator.rs:610-619 | a bundle is linked on top of a list, or the kernel panics because its link is not poisoned, exactly when it is on a list |
| CoreCacheAllocator.SlabAllocator.AllocEmptyBundle | src/mm/slab_allocator.rs:637-656 | the top empty bundle, or a new one, or null |
| CoreCacheAllocator.SlabAllocator.ExchangeEmptyBundle | src/mm/slab_allocator.rs:676-691 | the top full bundle for an empty one, if there is a full one |
| CoreCacheAllocator.SlabAllocator.ExchangeFullBundle | src/mm/slab_allocator.rs:712-718 | a full bundle is put away before an empty one is looked for |
| CoreCacheAllocator.SlabAllocator.AllocFromCache | src/mm/slab_allocator.rs:826-831 | the last object used is popped |
| CoreCacheAllocator.SlabAllocator.ReleaseToCache | src/mm/slab_allocator.rs:843-847 | the object goes in the next slot |
| CoreCacheAllocator.SlabAllocator.SwapCacheBundles | src/mm/slab_allocator.rs:854-857 | the two bundles change places |
| CoreCacheAllocator.SlabAllocator.FillCurrent | src/mm/slab_allocator.rs:985-991 | a core without a current bundle gets one if there is one |
| CoreCacheAllocator.SlabAllocator.FillStandby | src/mm/slab_allocator.rs:993-999 | a core without a standby bundle gets one if there is one |
| CoreCacheAllocator.SlabAllocator.Take | src/mm/slab_allocator.rs:1001-1026 | cases 1 to 3 of an allocation, as written, refine the model's step |
| CoreCacheAllocator.SlabAllocator.ExchangeStandby | src/mm/slab_allocator.rs:1093-1101 | case 3 of a free, as written |
| CoreCacheAllocator.SlabAllocator.Put | src/mm/slab_allocator.rs:1069-1110 | cases 1 to 3 of a free, as written, refine the model's step |
| CoreCacheAllocator.SlabAllocator.AllocInternal | src/mm/slab_allocator.rs:978-1023 | cases 1 to 3 of an allocation with the lazy bundles before them: the three steps one after another |
| ObjectAllocator.KernelObjects.constructor | src/mm/slab_allocator.rs:884-893 | a new allocator is in a start state |
| ObjectAllocator.KernelObjects.AllocInternal | src/mm/slab_allocator.rs:978-1027 | a whole allocation by one core, the slab manager asked last: object, state and panic are those of the steps, and without a panic it fails exactly when nothing is cached, no slab has an object and none is given |
| ObjectAllocator.KernelObjects.FreeInternal | src/mm/slab_allocator.rs:1069-1110 | a whole free by one core, null refused and the slab manager asked last: state and panic are those of the steps |
| ObjectAllocator.WholeAllocFailsIff | src/mm/slab_allocator.rs:978-1027 | a whole allocation that does not panic fails exactly when the core's bundles have no object, no bundle is full, no slab has one and none is given; otherwise exactly the object handed out changes hands, and the slabs are left alone unless nothing is cached |
| ObjectAllocator.WholeFreeToSlabIff | src/mm/slab_allocator.rs:1069-1110 | a whole free that does not panic takes the object from its caller, and puts it on its slab exactly when there is no place in a bundle |
| ObjectAllocator.WholeAllocRuns | src/mm/slab_allocator.rs:978-1027 | those steps are a run of the cores' state machine |
| ObjectAllocator.WholeFreeRuns | src/mm/slab_allocator.rs:1069-1110 | so are those of a free |
| Probing.PrimeProduct | src/support/hash_map.rs:47-59 | a prime divides no product of two smaller numbers |
| Probing.ProbesDistinct | src/support/hash_map.rs:47-59 | for a prime size, two different probes of the first half hit different slots |
| Probing.ProbesRepeat | src/support/hash_map.rs:47-59 | probes i and n - i hit the same slot, so later probes only repeat the first half |
| Probing.ProbedCount | src/support/hash_map.rs:47-59 | the first (n + 1) / 2 probes hit as many slots |
| Probing.FreeProbe | src/support/hash_map.rs:87-104 | while fewer than (n + 1) / 2 slots are taken, some probe finds a free one |
| Probing.CoreMapSizesPrime | src/arch/common/cpu.rs:16-21 | both sizes of the core map are prime |
| HashTable.StoredFree | src/support/hash_map.rs:97-100 | storing at the first free probe keeps keys unique and every key reachable past taken slots |
| HashTable.StoredAgain | src/support/hash_map.rs:92-96 | overwriting a key's value keeps the rest |
| HashTable.NotStored | src/support/hash_map.rs:90-103 | a key that no probe before a free slot finds is not in the table |
| HashTable.ProbeFindsFree | src/support/hash_map.rs:87-104 | in a table of odd prime size less than half full some probe finds a free slot |
| HashTable.HashMap.MakeProbeIndex | src/support/hash_map.rs:47-59 | the probe index, whose sum stays below 2^64 |
| HashTable.HashMap.Insert | src/support/hash_map.rs:87-104 | insert updates the finite map, or fails exactly when every probe finds another key; it succeeds while fewer than half the slots are taken |
| HashTable.HashMap.Find | src/support/hash_map.rs:115-128 | find is lookup in the finite map |
| HashTable.HashMap.Clear | src/support/hash_map.rs:131-135 | clear empties the map |
| CoreIndex.AddedAgrees | src/arch/common/cpu.rs:116-133 | adding a new core keeps the id map and the linear search in agreement, through the primary's change of places |
| CoreIndex.AddedRecords | src/arch/common/cpu.rs:116-133 | the list keeps every record and gains the core's own, first if it is the primary; all others but the one it replaces keep their indexes |
| CoreIndex.MissedDisagrees | src/arch/common/cpu.rs:121 | a core whose id the map did not take is found by the linear search only |
| CoreIndex.CoreConfig.AddCore | src/arch/common/cpu.rs:116-133 | the record is stored as given, at index zero if it is the primary, and every other is kept; the list and the map go on agreeing exactly when the map took the id; with fewer than 195 cores it always does |
| CoreIndex.CoreConfig.Reset | src/arch/common/cpu.rs:136-139 | no core is left in the list or the map |
| CoreIndex.CoreConfig.GetCoreIndex | src/arch/common/cpu.rs:170-206 | both branches give the index of the core with that id while map and list agree |
| SpinLock.StepExclusive | src/arch/aarch64/start/spin_lock.s:20-66 | every instruction keeps the lock word 1 exactly while one core owns the lock, and a set monitor vouching for what its core read |
| SpinLock.MutualExclusion | src/arch/aarch64/start/spin_lock.s:20-66 | over every interleaving of any number of cores at most one is between acquire and release |
| SpinLock.HeldByOne | src/arch/aarch64/start/spin_lock.s:20-66 | the same from a free lock |
| SpinLock.LockStays | src/arch/aarch64/start/spin_lock.s:20-27 | whatever any core does, a core inside lock stays inside it or comes to hold the lock |
| SpinLock.LockReturnsHolding | src/arch/aarch64/start/spin_lock.s:20-27 | over every interleaving, a call of lock is left only through holding it |
| SpinLock.TryStep | src/arch/aarch64/start/spin_lock.s:41-50 | try_lock goes through each instruction once, and ends holding the lock or refused |
| SpinLock.TryReturnsRefused | src/arch/aarch64/start/spin_lock.s:41-50 | over every interleaving, a call of try_lock is left only through holding the lock, or after reading a word that is not zero or a store that failed |
| SpinLock.FreeLockTaken | src/arch/aarch64/start/spin_lock.s:20-50 | alone, either call takes a free lock, from its beginning |
| SpinLock.FirstStoreWins | src/arch/aarch64/start/spin_lock.s:24-25 | of the cores that read a free lock, the first to store gets it and the others' stores fail |
| SpinLock.FreeLockAcquired | src/arch/aarch64/start/spin_lock.s:41-50 | alone, an acquire of a free lock succeeds |
| SpinLock.HeldLockRefused | src/arch/aarch64/start/spin_lock.s:46-47 | a try of a held lock returns without it |
| PageWalk.EntryFacts | src/arch/aarch64/mm.rs:520-527 | the index of a page leads to the entry that covers it, whose table below covers it too |
| PageWalk.SameEntry | src/arch/aarch64/mm.rs:520-527 | two pages of a table share an index exactly when their entries start the same |
| PageWalk.WalkFrame | src/arch/aarch64/mm.rs:565-607 | a walk depends only on the tables of its own address space that cover the page |
| PageFill.CompactCutIff | src/arch/aarch64/mm.rs:231-239 | off an entry boundary, filling size modulo entry size is right exactly when the range fits in the entry or ends on a boundary |
| PageFill.CompactCut | src/arch/aarch64/mm.rs:224-239 | a wrong cut means the range does not fit; the part cut off fits below exactly when the range does |
| PageFill.LeafStep | src/arch/aarch64/mm.rs:252-254 | a block or page written at the next entry maps its pages and leaves every other walk, or leads its first page to other memory when masking moves its address |
| PageFill.TableStep | src/arch/aarch64/mm.rs:240-250 | a lower table filled for the next entry does so too, and passes on what it leads astray |
| PageFill.BlockCongruentIff | src/arch/aarch64/mm.rs:416-418 | masking leaves a block's address alone exactly when the memory is aligned like the block's pages |
| PageFill.CongruentParts | src/arch/aarch64/mm.rs:224-258 | memory is aligned like its pages over a range exactly when it is over both parts on either side of an entry boundary |
| PageFill.StepMisled | src/arch/aarch64/mm.rs:224-258 | a page that leads to other memory is not mended by the parts that follow |
| PageFill.SurvivesIff | src/arch/aarch64/mm.rs:578-592 | a page outside the range walks as before exactly when no block above it has pages of the range: the code replaces such a block by an empty table |
| PageFill.DirectCongruent | src/arch/aarch64/mm.rs:68-88 | a direct map is always aligned like its pages |
| PageAstray.WrongCut | src/arch/aarch64/mm.rs:231-239 | after a wrong compact cut the fill makes no progress, ends before a page of the next entry, or makes no progress after one part |
| PageAstray.LoweredAstray | src/arch/aarch64/mm.rs:224-258 | on a range that does not fit, a compact fill of a zeroed table either never ends or leaves a page of the range that leads nowhere |
| PageAstray.GranularFitsIff | src/arch/aarch64/mm.rs:299-331 | the granular fill fits exactly the ranges inside one entry of level 3 |
| PageAstray.GranularLowered | src/arch/aarch64/mm.rs:303-317 | the granular fill of one entry with all that is left of the range: a page it has led too far on stays so |
| PageAstray.GranularWrote | src/arch/aarch64/mm.rs:318-330 | at level 4, a range that leaves the table writes its first page again, with memory further on |
| PageAstray.HighWalk | src/arch/aarch64/mm.rs:299-331 | a page led too far on walks to memory that is not its own |
| PageAstray.WrittenWalks | src/arch/aarch64/mm.rs:203-331 | from a zeroed table, what either fill leaves maps the range and nothing else exactly when the range fits and, for the compact one, its memory is aligned like its pages wherever an entry of level 2 or 3 lies in it |
| PageAstray.RangesThatFail | src/arch/aarch64/mm.rs:203-331 | concrete ranges: two pages across an entry boundary that neither strategy maps, an unaligned one on which compact never ends, and an entry over misaligned memory that granular maps and compact does not |
| PageTables.PageTables.FillTableCompact | src/arch/aarch64/mm.rs:203-258 | the loop as written, from any table and range: what it leaves when it ends is what the theorems describe, it goes round for ever only on ranges that do not fit, and it panics only for want of a page or at a whole entry of level 1 |
| PageTables.PageTables.FillTableGranular | src/arch/aarch64/mm.rs:279-331 | the loop as written, from any table and range: it always ends, panicking only for want of a page, and leaves what the theorems describe |
| PageTables.PageTables.AllocTableAndFill | src/arch/aarch64/mm.rs:565-607 | a lower table, zeroed if it is new, is filled for one entry with whatever part of the range it is given |
| PageTables.PageTables.FillTable | src/arch/aarch64/mm.rs:143-169 | either strategy, from any level, on any range |
| PageTables.PageTables.MapMemory | src/arch/aarch64/mm.rs:107-128 | if the range fits, every page of it walks to its memory and every other page as before unless its block was broken, exactly when the strategy is granular or the memory is aligned; from a zeroed root the range and nothing else is mapped exactly when it also fits; no other address space changes, and every page taken from the allocator is a table |
| DeviceTree.NumberReadsBack | src/support/dtb.rs:357-363 | big-endian numbers read back |
| DeviceTree.Terminator | src/support/dtb.rs:570-592 | the first zero byte, if there is one |
| DeviceTree.SkipTo | src/support/dtb.rs:294-303 | skipping never leaves the blob |
| DeviceTree.BeginReads | src/support/dtb.rs:627-630 | a written node name and its padding read back, leaving the cursor at the next token |
| DeviceTree.PropertyReads | src/support/dtb.rs:272-273 | a written property is skipped to the next token |
| DeviceTreeReads.PropertiesSkipped | src/support/dtb.rs:255-275 | on written tokens, skipping properties ends at the first token that begins or ends a node |
| DeviceTreeReads.ScanReads | src/support/dtb.rs:618-651 | on written tokens, the scan visits the nodes in the order they begin, until the scanner stops |
| DeviceTreeReads.ScanReadsTree | src/support/dtb.rs:618-651 | on any written tree with no-operation tokens after its root begins, the scan shows every node once, parents first, with its name and first property, and if not stopped succeeds exactly when the end token follows |
| DeviceTreeReads.ScanEnds | src/support/dtb.rs:618-651 | the scan ends with the node where the scanner first says other than to go on, succeeding there exactly if told to stop |
| DeviceTreeSample.ScanOfTree | src/support/dtb.rs:618-651 | the names and locations shown for a structure of 100 given bytes |
| DeviceTreeSample.ChildrenOfTree | src/support/dtb.rs:198-240 | which children of it are found: the first of two of the same name, not a grandchild of that name before them |
| DeviceTreeReads.FindReadsTree | src/support/dtb.rs:198-240 | finding a child gives the first immediate child of that name, or none, whatever its descendants are called |
| DeviceTreeReads.WrittenIsBlock | src/support/dtb.rs:618-651 | writing any tokens between a word-aligned header and the end token, or another word that begins nothing, gives bytes to which the theorems apply |
| DeviceTreeReads.LeadingNopRejected | src/support/dtb.rs:620-624 | a no-operation token before the root makes the scan fail |
| DtbReader.DtbReader.GetU32 | src/support/dtb.rs:317-323 | a number is read inside the blob or not at all |
| DtbReader.DtbReader.GetNullTerminated | src/support/dtb.rs:570-592 | the loop finds the first zero byte |
| DtbReader.DtbReader.SkipAndAlign | src/support/dtb.rs:294-303 | the cursor moves to the next word or the end |
| DtbReader.DtbReader.SkipNodeProperties | src/support/dtb.rs:255-275 | the loop ends on any bytes, with the cursor inside the blob |
| DtbReader.DtbReader.GetRootNode | src/support/dtb.rs:167-179 | the root's first property, if the structure begins with it |
| DtbReader.DtbReader.FindChildNode | src/support/dtb.rs:198-240 | the nested loops end on any bytes and compute the search of the theorems |
| DtbReader.DtbReader.ScanNodes | src/support/dtb.rs:618-651 | the nested loops end on any bytes, the cursor staying inside the blob, and compute the scan of the theorems |
| Ranges.ExcludeMeans | src/support/range.rs:118-180 | the parts hold exactly the addresses outside the exclusion, with the range's tag; with overflow checks the cut panics exactly when the exclusion ends at the highest address strictly inside the range |
| Ranges.CompareMeans | src/support/range.rs:45-82 | each ordering in terms of the addresses held: all before, all after, the same, one among the other's, or some in both with either starting first |
| Ranges.WrappedCutMeans | src/support/range.rs:118-180 | without overflow checks that cut gives an empty part, and the parts still hold exactly the addresses outside the exclusion |
| Ranges.CutTags | src/support/range_set.rs:95-137 | after the cut every address outside the exclusion has the tag it had, and none inside has one |
| Ranges.CutOrdered | src/support/range_set.rs:95-137 | the trimmed cut is in order, without empty or overlapping ranges |
| Ranges.CutCount | src/support/range_set.rs:95-137 | at most one range is split in two |
| RangeSets.InsertedOrdered | src/support/range_set.rs:65-88 | inserting a range apart from all others keeps the order and adds just it |
| RangeSets.RangeSet.InsertRange | src/support/range_set.rs:65-88 | the array holds the range inserted by its base, or the call fails exactly when the set is full or the range is none |
| RangeSets.RangeSet.TrimEmptyRanges | src/support/range_set.rs:147-159 | the array holds the ranges that are not empty |
| RangeSets.RangeSet.ReplaceAt | src/support/range_set.rs:98-133 | one range in the array is replaced by its parts, or the call panics |
| RangeSets.RangeSet.ExcludeRange | src/support/range_set.rs:95-137 | the array holds the trimmed cut; on an ordered set it panics exactly when a range strictly holds the exclusion and the set is full or, with overflow checks, the exclusion ends at the highest address |
| RangeSets.ExcludedTags | src/support/range_set.rs:95-137 | from ordered sets the address-to-tag map loses exactly the excluded addresses |
| ZoneSetup.InitZoneInfo | src/mm/mod.rs:150-169 | each zone's bounds are those of its first and last ranges and hold all of them |
| ZoneSetup.CutEnd | src/mm/mod.rs:223-231 | cutting the end of one range shortens it and touches no other |
| ZoneSetup.InitAllocatorMemoryConfig | src/mm/mod.rs:197-234 | the given total of metadata is taken from the end of the first linear range with more room, none before it having room, leaving every other range and its index; it panics exactly when there is none, or the set is full, or, with overflow checks, the range ends at the highest address |

## Left out

- The byte-level rounding and validation of the page allocator's `new` (src/mm/page_allocator.rs:300-344): the model starts from whole pages. The documentation says a base of 0 is rejected; the code does not test for it.
- The bits of a page-table descriptor (src/arch/aarch64/mm.rs:381-508): a descriptor is invalid, a table, or a block or page with its address and memory type.
- SlabManager.Manager.FreeUnused: what another owner may have done with a returned slab before it is read and poisoned is not modelled; its node is read as it was.
- ObjectAllocator.KernelObjects.AllocInternal: one core's steps are not interrupted here; interleavings are the subject of CoreCacheRuns. FreeInternal likewise.
- BuddyAllocator.PageAllocator.constructor: bases that are not a multiple of the largest block are left to BuddyDepartures.MergedNaturallyAlignedIff, and ranges that are not whole pages to the rounding named above.
- ZoneSetup.InitZoneInfo: the metadata size of each zone, the page-rounded BuddyAllocator.PageAllocator.CalcMetadataSize of its bounds.
- ZoneSetup.InitAllocatorMemoryConfig: the total is a parameter, the sum of those sizes.
- Words.FloorLog2 and Words.CeilLog2 are on numbers and Bits64.FloorLog2Is and Bits64.CeilLog2Is on 64-bit words; that a word's highest set bit k means 2^k <= n < 2^(k+1) is not stated between the two.
- PageTables.PageTables.MapMemory: when exactly the page allocator runs out of pages is not stated, only that nothing but that and a whole entry of level 1 makes it panic.
- `HashMap::erase` (src/support/hash_map.rs:146-160): no caller, and it breaks the probing invariant.
- The FNV hash (src/support/hash.rs): any function to 32 bits.
- CoreIndex.CoreConfig.AddCore: agreement is stated for different ids; cores added twice are not considered.
- `RangeSet::trim_overlapping_ranges` (src/support/range_set.rs:162-196): it does not end on overlapping ranges, and its callers' sets have none.
- `Range::split`, bitmaps, the buffered allocator, `get_reg_pair`, `get_range` and `get_next_property` of the reader: each would add only easy members.
- The general bit count `ones`: only its value on words of trailing ones, which is all the logarithms need.
- Weak memory ordering, cache and TLB maintenance, interrupts, boot assembly, the 32-bit port: hardware.
