# FrostyOS kernel: verified model

This project models the parts of the FrostyOS kernel (x86_64) that keep invariants over unbounded runs, and proves them
in Dafny: the rank-balanced tree under the kernel tables, the two allocators, paging and copy-on-write, the scheduler and
its wait queues, the NMI shootdown, and the civil-date function.

| files | what they model |
|---|---|
| WavlTree, WavlOps | the weak-AVL tree as a value, with a zipper for the upward loops; compared with a sorted list |
| WavlMemory, WavlSteps, WavlUnlink, WavlSearch, WavlRaw | the same tree as elements in memory with parent links and parity bits, rewritten in place |
| PrivateMemory | address spaces that share nothing, as a deterministic reference |
| CopyOnWrite, CopyOnWriteRuns | fork, page faults, user accesses and deletion over shared anons; compared with that reference |
| Regions, RegionIndex, RegionAllocator, RegionSplits, VMRegionAllocator | the region allocator with its two indexes |
| PageEntries, RadixTree, RadixUpdate, PageTables, PageUnmap, PageTree, PageRights, PageRuns | four-level page tables in frames; compared with a flat map |
| RegionMapper | mapping a region with 1 GiB, 2 MiB and 4 KiB pages |
| HeapBlocks, Heap, HeapWrites, HeapAllocator | the kernel heap, and the headers it writes |
| PickNext, Placement, ThreadLists | which level runs next, where every thread is, and the linked lists threads are in |
| Semaphore, Futex | blocking primitives as steps under their locks |
| Shootdown | the N-processor shootdown, one step per access to the shared record |
| Dates | days and seconds since 1970 |
| Basics | types that several modules share |

How the source is rendered:

- Objects whose methods update fields are classes (`RawTree`, `AddressSpaces`, `VMRegionAllocator`, `PageTree`,
  `HeapAllocator`, `ProcessorLists`, `Semaphore`). Memory that the source reaches through pointers is a field that maps
  addresses to records, so that aliasing and in-place update are part of the model. The loops of the source are loops.
- Protocols between processors or threads are step relations with an invariant that every step keeps; a run is any
  sequence of enabled steps, and the theorems are about every state of every run.
- Time, the physical memory manager, the section allocator of the heap and the contents of fresh frames are parameters.
- Addresses of the paging and region code are page numbers; entries are records of bit fields with the widths of the word.

Where the code does less than one might expect, the exact condition is proved:

- `PageRuns.RemapExact`: RemapPage marks an unmapped page present unless no page of the same last table is mapped.
- `CopyOnWriteRuns.Perform`: a first touch uses the frame it is given without a test. The invariant survives exactly if the
  allocator has a frame whenever it has an anon, and both for a page that is filled at once;
  `CopyOnWriteRuns.TouchWithoutFrame` is a run that ends otherwise, and
  `CopyOnWriteRuns.FrameZeroShared` says what then follows.
- `RegionMapper.MapRegionWithLargestPages`: the mapper aligns physical addresses only. The region is mapped right exactly if
  every large page it uses is aligned in virtual memory too (`RegionMapper.ShiftedRegion` is a region where it is not).
- `VMRegions.RotationSeen`: freeing what was just allocated gives back the free index up to the order of one list, and
  identically exactly if no other free region has that size. New list entries go to the end and allocation takes the
  first. `VMRegions.RotationShown` is a run on five pages in which the index comes back different.
- `VMRegions.ResizeExact`: ResizeAllocatedRegion does not test that the new range lies in the region; when it does not,
  the tree no longer tiles the range, except where both splits run into keys that are taken (`RegionSplits.ResizeBeyond`).
- `VMRegions.TestExact`: the ends of ranges are compared modulo 2^64. A count that wraps passes, after which the allocator
  is out of order (`VMRegions.WrappedAllocation`, `VMRegions.WrappedFree`); in a region that ends at 2^64 only a range that
  ends there passes (`VMRegions.WholeMemoryRefused`); and freeing a range that ends there merges with a free
  region at 0 (`VMRegions.WholeMemoryFreed`). Each has its exact condition in `AllocateAt`, `FreePages` and `AllocateThenFree`.
- `HeapAllocators.AlignedExact`: sizes above 2^64 - 16 are aligned to 0, and such a request is served
  (`HeapAllocators.HugeRequest`).
- `Futex.WakeLoop`: the count of Wake is converted to a signed number, so a count above INT_MAX wakes nobody
  (`Futex.WakesNobody`).
- `Dates.DatesThatFit`: the first and the last date for which the 32-bit arithmetic is exact.
- `Futex.NeverFreed`: the reference a futex queue is created with is never given back, so PutFutex never frees it.
- `ThreadLists.PushCheck` and `ThreadLists.OtherThread`: the assertion that a thread is in one list at a time cannot see
  the only thread of another list, and the assertion of remove cannot see a thread inside another list. That no thread
  is ever in two places is therefore proved of the whole system (`Placement.OnePlace`); such calls break
  the lists, exactly (`ThreadLists.ProcessorLists.PushBack` and `Remove`, `ThreadLists.PushedTwice`, `ThreadLists.RemovedFromOther`).
- `Heap.SectionTest`: Free looks for a block up to 32 bytes before the end of a section; that this finds every block
  rests on the invariant that the last block of a section holds at least 32 bytes.

## Model

| member | source | states |
|---|---|---|
| `WavlTree.InsertRotateRank` | kernel/lib/include/DataStructures/tree.h:566-619 | the single or double rotation of an insertion gives a balanced subtree of the rank the taller child had |
| `WavlTree.InsertRotateOrder` | kernel/lib/include/DataStructures/tree.h:566-619 | the rotations keep the elements in the same order |
| `WavlTree.InsertColorBalanced` | kernel/lib/include/DataStructures/tree.h:529-630 | the whole upward loop of an insertion, through every case, ends in a tree that obeys all weak-AVL rules |
| `WavlTree.InsertColorOrder` | kernel/lib/include/DataStructures/tree.h:529-630 | the loop leaves the in-order list of elements as it was |
| `WavlTree.RemoveRotateRank` | kernel/lib/include/DataStructures/tree.h:677-749 | the rotations of a removal give a balanced subtree of the rank the hole needs |
| `WavlTree.RemoveRotateOrder` | kernel/lib/include/DataStructures/tree.h:677-749 | they keep the elements in the same order |
| `WavlTree.RemoveColorBalanced` | kernel/lib/include/DataStructures/tree.h:660-760 | the whole upward loop of a removal ends in a tree that obeys all weak-AVL rules |
| `WavlTree.RemoveColorOrder` | kernel/lib/include/DataStructures/tree.h:660-760 | the loop leaves the in-order list as it was |
| `WavlTree.RemoveFixSound` | kernel/lib/include/DataStructures/tree.h:643-760 | with the case before the loop (a rank-2 leaf is demoted): balanced, same elements |
| `WavlOps.PutMeaning` | kernel/lib/include/DataStructures/tree.h:845-865 | the reference insertion into a sorted list adds exactly the one element, or nothing if the key is taken |
| `WavlOps.WithoutMeaning` | kernel/lib/include/DataStructures/tree.h:769-820 | the reference removal takes out exactly the element with the key |
| `WavlOps.InsertSound` | kernel/lib/include/DataStructures/tree.h:822-865 | insertion keeps every weak-AVL rule and search order and equals the reference insertion on the sorted list |
| `WavlOps.RemoveAtSound` | kernel/lib/include/DataStructures/tree.h:769-820 | removing a node (no, one or two children) keeps every rule and drops only that node from the list |
| `WavlOps.RemoveSound` | kernel/lib/include/DataStructures/tree.h:769-820 | find and remove keeps every rule and search order and equals the reference removal |
| `WavlOps.HeightWithinRank` | kernel/lib/include/DataStructures/tree.h:499-524 | a balanced tree is at most as high as its rank |
| `WavlOps.RankWithinSize` | kernel/lib/include/DataStructures/tree.h:65-76 | a balanced tree with n elements and rank r has 2^r <= (n+1)^2 |
| `WavlOps.RunHeight` | kernel/lib/include/DataStructures/tree.h:65-76 | after any run of insertions and removals the height h has 2^h <= (n+1)^2, n being the size of the reference list |
| `WavlRaw.RawTree.constructor` | kernel/lib/include/DataStructures/tree.h:321-323 | an empty tree |
| `WavlRaw.RawTree.Rotate` | kernel/lib/include/DataStructures/tree.h:404-410 | RB_ROTATE rewrites exactly the three links it should, and the bits of none |
| `WavlRaw.RawTree.Hoist` | kernel/lib/include/DataStructures/tree.h:616-619 | the closing rotation puts the hoisted subtree in the place of its parent, in memory |
| `WavlRaw.RawTree.InsertDoubleBits` | kernel/lib/include/DataStructures/tree.h:589-595 | the bit operations between the two rotations, element by element |
| `WavlRaw.RawTree.InsertDouble` | kernel/lib/include/DataStructures/tree.h:567-619 | the double rotation in memory is the double rotation on trees |
| `WavlRaw.RawTree.InsertRotateInPlace` | kernel/lib/include/DataStructures/tree.h:566-619 | both rotation cases of RB_INSERT_COLOR in memory are the function on trees |
| `WavlRaw.RawTree.InsertColor` | kernel/lib/include/DataStructures/tree.h:529-630 | the loop over parent links leaves memory spelling out the rebalanced tree |
| `WavlRaw.RawTree.RemoveDoubleBits` | kernel/lib/include/DataStructures/tree.h:710-715 | the bit operations between the two rotations of a removal |
| `WavlRaw.RawTree.RemoveDouble` | kernel/lib/include/DataStructures/tree.h:686-749 | the double rotation in memory is the double rotation on trees |
| `WavlRaw.RawTree.RemoveRotateInPlace` | kernel/lib/include/DataStructures/tree.h:677-749 | both rotation cases of RB_REMOVE_COLOR in memory are the function on trees |
| `WavlRaw.RawTree.RemoveColor` | kernel/lib/include/DataStructures/tree.h:643-760 | RB_REMOVE_COLOR leaves memory spelling out the rebalanced tree |
| `WavlRaw.RawTree.RemoveColorLoop` | kernel/lib/include/DataStructures/tree.h:660-760 | the same for its loop |
| `WavlRaw.RawTree.Splice` | kernel/lib/include/DataStructures/tree.h:777-799 | an element with at most one child is replaced by that child |
| `WavlRaw.RawTree.MoveSuccessor` | kernel/lib/include/DataStructures/tree.h:781-796 | the links the successor takes over, field by field |
| `WavlRaw.RawTree.Reattach` | kernel/lib/include/DataStructures/tree.h:797-799 | the link above the removed element and the up link of the child that moved |
| `WavlRaw.RawTree.Replace` | kernel/lib/include/DataStructures/tree.h:781-799 | an element with two children is replaced by its successor; the hole is where the successor was |
| `WavlRaw.RawTree.Remove` | kernel/lib/include/DataStructures/tree.h:769-820 | RB_REMOVE in memory: all rules kept, and exactly this element leaves the in-order list |
| `WavlRaw.RawTree.InsertFinish` | kernel/lib/include/DataStructures/tree.h:822-843 | hanging in the new leaf and rebalancing gives the inserted tree |
| `WavlRaw.RawTree.InsertSearch` | kernel/lib/include/DataStructures/tree.h:845-865 | the search ends at the element with the key, or at the place where it belongs, within 2 lg(n+1) steps |
| `WavlRaw.RawTree.Insert` | kernel/lib/include/DataStructures/tree.h:845-865 | RB_INSERT in memory: all rules kept; the list gains the fresh element at its place, or the element that holds the key is returned and nothing changes |
| `WavlRaw.RawTree.Find` | kernel/lib/include/DataStructures/tree.h:867-884 | RB_FIND returns the element with the key if and only if there is one, within 2 lg(n+1) steps |
| `WavlRaw.RawTree.NFind` | kernel/lib/include/DataStructures/tree.h:886-906 | RB_NFIND returns the first element not below the key, within 2 lg(n+1) steps |
| `WavlRaw.RawTree.Outermost` | kernel/lib/include/DataStructures/tree.h:990-1004 | the loop to the left or right end of a subtree, in fewer steps than it is high |
| `WavlRaw.RawTree.MinMax` | kernel/lib/include/DataStructures/tree.h:990-1004 | first or last element of the list, null if it is empty, within 2 lg(n+1) steps |
| `WavlRaw.RawTree.Climb` | kernel/lib/include/DataStructures/tree.h:908-924 | the climbing loop ends at the nearest element on the other side |
| `WavlRaw.RawTree.Neighbour` | kernel/lib/include/DataStructures/tree.h:908-969 | RB_NEXT and RB_PREV: the neighbour in the list, null exactly at its end |
| `WavlRaw.RawTree.FindNodeOrLower` | kernel/lib/include/DataStructures/AVLTree.hpp:118-127 | the last element whose key is at most the given one |
| `WavlRaw.RawTree.Clear` | kernel/lib/include/DataStructures/AVLTree.hpp:164-174 | removing while iterating empties the tree |
| `CopyOnWrite.Touch` | kernel/src/Memory/VMM.cpp:818-833 | a first touch keeps the invariant and gives this page alone a content |
| `CopyOnWrite.CopyAway` | kernel/src/Memory/VMM.cpp:699-740 | leaving a shared anon for a copy keeps the invariant, and no address space sees a difference |
| `CopyOnWrite.ShareFlat` | kernel/src/Memory/VMM.cpp:1057-1108 | a forked slot reads what the parent slot reads, and every other page is as before |
| `CopyOnWrite.Share` | kernel/src/Memory/VMM.cpp:1057-1108 | sharing keeps: reference counts equal the slots pointing at an anon, no shared frame writable, one frame per anon |
| `CopyOnWrite.Drop` | kernel/src/Memory/VMM.cpp:80-91 | dropping a slot keeps the invariant; the frame is freed exactly with the last reference |
| `CopyOnWrite.NothingLeaks` | kernel/src/Memory/VMM.cpp:68-98 | when the last slot is gone no anon, frame or mapping is left |
| `CopyOnWrite.OneReference` | kernel/src/Memory/VMM.cpp:688-755 | an anon with reference count 1 is read through one slot only |
| `CopyOnWrite.SoleReader` | kernel/src/Memory/VMM.cpp:688-755 | a write to the frame of such an anon is seen through that slot only |
| `CopyOnWrite.GivenOnce` | kernel/src/Memory/VMM.cpp:80-91 | between two times a frame is given back it was taken again: in a legal log each is freed once |
| `CopyOnWrite.LiveFrames` | kernel/src/Memory/VMM.cpp:80-91 | the frames held are exactly those some slot reads |
| `CopyOnWrite.AddressSpaces.constructor` | kernel/src/Memory/VMM.cpp:51-57 | no address space has a page, no frame is held |
| `CopyOnWrite.AddressSpaces.UserRead` | kernel/src/Memory/VMM.cpp:633-755 | a load through the page tables returns what the private memory of the address space holds |
| `CopyOnWrite.AddressSpaces.UserExecute` | kernel/src/Memory/VMM.cpp:633-755 | a fetch through the page tables goes through exactly on a mapping that is executable, and returns what the private memory holds |
| `CopyOnWrite.AddressSpaces.UserWrite` | kernel/src/Memory/VMM.cpp:633-755 | a store through a writable mapping changes this page of this address space and no other page of any |
| `CopyOnWrite.AddressSpaces.HandlePageFault` | kernel/src/Memory/VMM.cpp:633-833 | a fault changes no content that was there, fills a page whose contents are open, and succeeds exactly for an access the protection allows with the allocations it needs; after it the access goes through, an instruction fetch too: the mapping is executable exactly if the protection is; the invariant is kept unless a first touch gets an anon without a frame |
| `CopyOnWrite.AddressSpaces.CopyFault` | kernel/src/Memory/VMM.cpp:699-740 | the write fault on a shared page: the slot leaves for a copy, writable, and executable exactly if allowed |
| `CopyOnWrite.AddressSpaces.MapFault` | kernel/src/Memory/VMM.cpp:741-754 | mapping an existing frame: writable exactly if allowed and not shared, executable exactly if allowed |
| `CopyOnWrite.AddressSpaces.TouchFault` | kernel/src/Memory/VMM.cpp:818-833 | the first touch: a zeroed page where the entry asks for it; the invariant is kept if and only if there is no anon, the mapping is present, or there is a frame |
| `CopyOnWrite.AddressSpaces.Downgrade` | kernel/src/Memory/VMM.cpp:1099-1108 | the parent mapping loses its write permission and nothing else |
| `CopyOnWrite.AddressSpaces.ForkSlot` | kernel/src/Memory/VMM.cpp:1057-1108 | one slot: the child reads what the parent reads |
| `CopyOnWrite.AddressSpaces.Fork` | kernel/src/Memory/VMM.cpp:1041-1117 | the child has exactly the parent contents and protection of the pages the loop reached, every other memory is unchanged |
| `CopyOnWrite.AddressSpaces.DeleteSlot` | kernel/src/Memory/VMM.cpp:80-91 | one slot: exactly this page goes; its frame is given back exactly if no other slot reads it |
| `CopyOnWrite.AddressSpaces.Delete` | kernel/src/Memory/VMM.cpp:68-98 | exactly the pages of this address space go; the frames kept are exactly those other address spaces read |
| `CopyOnWrite.AddressSpaces.AddSlot` | kernel/src/Memory/VMM.cpp:134-223 | a new page of an anonymous entry, empty or filled at once; the kernel writes through a null pointer exactly if a physical page is asked for without an anon; the invariant is kept if and only if no physical page is asked for or there are an anon and a frame |
| `CopyOnWrite.AddressSpaces.UserLoad` | kernel/src/Memory/VMM.cpp:633-833 | load, fault, load again: the byte of the private memory, refused exactly without read permission or for want of memory |
| `CopyOnWrite.AddressSpaces.UserFetch` | kernel/src/Memory/VMM.cpp:633-833 | fetch, fault, fetch again: the byte of the private memory, refused exactly without execute permission or for want of memory |
| `CopyOnWrite.AddressSpaces.UserStore` | kernel/src/Memory/VMM.cpp:633-833 | store, fault, store again: succeeds exactly if the entry is writable and the memory it needs is there, and changes one byte of one page |
| `CopyOnWriteRuns.Perform` | kernel/src/Memory/VMM.cpp:68-98 | one event of any kind: the private memories and what the program sees change exactly as in spaces that share nothing; it differs exactly for an access that lacks memory, and breaks exactly for a first touch without a frame, or a fill without anon and frame |
| `CopyOnWriteRuns.Run` | kernel/src/Memory/VMM.cpp:1041-1117 | every script of events under any behaviour of the allocators: every state and everything seen are those of spaces that share nothing, but for exactly the accesses that lack the memory they need; determined by the script alone if memory suffices; the log of frames stays legal; it stops only before a touch or a fill without the memory it needs |
| `CopyOnWriteRuns.TouchWithoutFrame` | kernel/src/Memory/VMM.cpp:818-833 | a concrete run with a first touch that is given frame 0, after which the invariant fails |
| `CopyOnWriteRuns.FrameZeroShared` | kernel/src/Memory/VMM.cpp:818-833 | two pages given frame 0 are one: what is stored through one is read through the other |
| `PrivateMemory.FaultAccess` | kernel/src/Memory/VMM.cpp:661-686 | for each of the six protections a fault is valid exactly if it is an access the protection names |
| `PrivateMemory.Determined` | kernel/src/Memory/VMM.cpp:1041-1117 | the reference is deterministic: with memory left, states and results follow from the start and the script |
| `PrivateMemory.StepIsolated` | kernel/src/Memory/VMM.cpp:1041-1117 | an event of another address space changes nothing here |
| `PrivateMemory.Isolation` | kernel/src/Memory/VMM.cpp:1041-1117 | over any stretch of a run in which an address space does nothing its memory stays the same |
| `PrivateMemory.ForkedCopy` | kernel/src/Memory/VMM.cpp:1041-1117 | a child without pages before its fork, and idle since, reads at any later time what the parent read at the fork |
| `Regions.Canonical` | kernel/src/Memory/VMRegionAllocator.cpp:468-490 | a gapless, coalesced partition is determined by its allocated regions |
| `Regions.SplitTiled` | kernel/src/Memory/VMRegionAllocator.cpp:456-466 | splitting a region keeps the tiling |
| `Regions.RunInRegion` | kernel/src/Memory/VMRegionAllocator.cpp:83-153 | contiguous free pages lie in one free region |
| `Regions.MergeNextCoalesced` | kernel/src/Memory/VMRegionAllocator.cpp:235-368 | after the merges no two neighbours are free |
| `RegionIndex.UnlistMeaning` | kernel/src/Memory/VMRegionAllocator.cpp:83-153 | taking a region off its list removes exactly it and leaves no empty list |
| `RegionIndex.EnlistMeaning` | kernel/src/Memory/VMRegionAllocator.cpp:83-153 | listing a region adds exactly it |
| `RegionIndex.FindNodeOrLower` | kernel/lib/include/DataStructures/AVLTree.hpp:118-127 | the greatest key not above the given one, none exactly if there is none |
| `RegionIndex.FindNodeOrHigher` | kernel/lib/include/DataStructures/AVLTree.hpp:112-116 | the least key not below the given one, none exactly if there is none |
| `RegionAllocator.TakenAgree` | kernel/src/Memory/VMRegionAllocator.cpp:83-233 | after an allocation the by-size index holds exactly the free regions of the partition |
| `RegionAllocator.Freed` | kernel/src/Memory/VMRegionAllocator.cpp:235-368 | after a free the partition tiles the range, free regions are maximal and the free count is exact |
| `VMRegions.RunHasRegion` | kernel/src/Memory/VMRegionAllocator.cpp:83-153 | every run of n free pages lies in a free region of at least n pages |
| `VMRegions.NoFit` | kernel/src/Memory/VMRegionAllocator.cpp:83-153 | if no list has n pages then no n contiguous free pages exist |
| `VMRegions.Fits` | kernel/src/Memory/VMRegionAllocator.cpp:83-153 | the head of the smallest adequate list is a best fit |
| `VMRegions.TakenSound` | kernel/src/Memory/VMRegionAllocator.cpp:83-233 | allocation keeps both indexes in agreement, adds exactly the region, and counts exactly |
| `VMRegions.FreedSound` | kernel/src/Memory/VMRegionAllocator.cpp:235-368 | freeing keeps both indexes in agreement, removes exactly the range, and counts exactly |
| `VMRegions.ResizedSound` | kernel/src/Memory/VMRegionAllocator.cpp:378-404 | resizing to a range inside keeps both indexes and the free pages |
| `VMRegions.WhereFree` | kernel/src/Memory/VMRegionAllocator.cpp:155-233 | the region found by the lower-bound lookup decides whether all pages asked for are free |
| `VMRegions.PartFreeable` | kernel/src/Memory/VMRegionAllocator.cpp:235-368 | it also decides which allocated region contains the range |
| `VMRegions.ExactFreeable` | kernel/src/Memory/VMRegionAllocator.cpp:235-368 | the exact lookup finds the region if and only if it is allocated with this size |
| `VMRegions.TestExact` | kernel/src/Memory/VMRegionAllocator.cpp:165-171 | the 64-bit comparison of ends passes exactly for ranges that fit and do not end below a region end at 2^64, and for those that wrap |
| `VMRegions.BelowAll` | kernel/src/Memory/VMRegionAllocator.cpp:155-368 | below 2^64 nothing of this happens |
| `VMRegions.MergeFoundIs` | kernel/src/Memory/VMRegionAllocator.cpp:287-327 | the lookups find the neighbours of the range, unless it ends at 2^64 and the region at 0 is free or the range itself |
| `VMRegions.ReleasedWrong` | kernel/src/Memory/VMRegionAllocator.cpp:255-360 | otherwise the indexes are out of order |
| `VMRegions.WrappedAllocation` | kernel/src/Memory/VMRegionAllocator.cpp:165-171 | a concrete allocation with a count that wraps: accepted, after which the counters are wrong |
| `VMRegions.WrappedFree` | kernel/src/Memory/VMRegionAllocator.cpp:260-266 | the same for a free that need not be exact |
| `VMRegions.WholeMemoryRefused` | kernel/src/Memory/VMRegionAllocator.cpp:36-59 | with all of memory as its range the allocator refuses a free page |
| `VMRegions.WholeMemoryFreed` | kernel/src/Memory/VMRegionAllocator.cpp:310-327 | and freeing all of it leaves the indexes out of order |
| `VMRegions.ReleasedAtOnce` | kernel/src/Memory/VMRegionAllocator.cpp:281-333 | the three-way merge is what merging with the previous and then the next region gives |
| `VMRegions.UsedCounted` | kernel/src/Memory/VMRegionAllocator.cpp:468-490 | used and free pages add up to the range |
| `VMRegions.RoundTrip` | kernel/src/Memory/VMRegionAllocator.cpp:83-153 | allocating and freeing gives back the identical partition, and the free index up to one rotated list |
| `VMRegions.ResizeExact` | kernel/src/Memory/VMRegionAllocator.cpp:378-404 | resizing keeps the two indexes in order if and only if the new range lies in the region, or both splits meet keys the tree has and change nothing |
| `RegionSplits.ResizeBeyond` | kernel/src/Memory/VMRegionAllocator.cpp:378-404 | a concrete region of two pages resized to three, after which the tree does not tile the range |
| `VMRegions.RotationSeen` | kernel/src/Memory/VMRegionAllocator.cpp:235-368 | the free index comes back identical if and only if no other free region has the size of the one allocated from |
| `VMRegions.RotationShown` | kernel/src/Memory/VMRegionAllocator.cpp:235-368 | a run on five pages after which the partition is the same and the free index another |
| `VMRegions.RotationVisible` | kernel/src/Memory/VMRegionAllocator.cpp:235-368 | a rotated list is another one exactly if it has two entries; as sets the lists are always the same |
| `VMRegions.Isolate` | kernel/src/Memory/VMRegionAllocator.cpp:267-275 | the two splits, in 64-bit arithmetic |
| `VMRegions.TakeOut` | kernel/src/Memory/VMRegionAllocator.cpp:173-224 | the steps of an allocation at an address, in both indexes: they take the pages the region has, and leave the range untiled if the address lies behind it |
| `VMRegions.TakeFirst` | kernel/src/Memory/VMRegionAllocator.cpp:91-145 | the steps of a best-fit allocation, in both indexes |
| `VMRegions.PreviousNode` | kernel/src/Memory/VMRegionAllocator.cpp:291-294 | the greatest key below |
| `VMRegions.AbsorbPrevious` | kernel/src/Memory/VMRegionAllocator.cpp:291-308 | the previous region is absorbed exactly if it is free and adjacent |
| `VMRegions.AbsorbNext` | kernel/src/Memory/VMRegionAllocator.cpp:310-327 | the region at an address is absorbed exactly if there is one and it is free |
| `VMRegions.MergeInto` | kernel/src/Memory/VMRegionAllocator.cpp:287-333 | one region replaces the freed one and the neighbours that the lookups find |
| `VMRegions.TakeAllOff` | kernel/src/Memory/VMRegionAllocator.cpp:335-346 | the merged neighbours leave their lists |
| `VMRegions.Release` | kernel/src/Memory/VMRegionAllocator.cpp:267-360 | the steps of FreePages: right in both indexes if the range lies in the region and does not merge over the top, out of order otherwise |
| `VMRegions.CopyRegions` | kernel/src/Memory/VMRegionAllocator.cpp:406-438 | the copied partition is the same |
| `VMRegions.CopyLists` | kernel/src/Memory/VMRegionAllocator.cpp:406-438 | the copied lists are the same |
| `VMRegions.VMRegionAllocator.constructor` | kernel/src/Memory/VMRegionAllocator.cpp:36-59 | one free region, agreeing indexes and counters; 0 and 0 stand for the whole address space |
| `VMRegions.VMRegionAllocator.AllocatePages` | kernel/src/Memory/VMRegionAllocator.cpp:83-153 | fails exactly if no n contiguous free pages exist; otherwise carves from a smallest adequate free region; both indexes agree and the counters are exact |
| `VMRegions.VMRegionAllocator.AllocateAt` | kernel/src/Memory/VMRegionAllocator.cpp:155-233 | succeeds exactly if all the pages are free and do not end below a region end at 2^64, or if the count wraps; in order afterwards exactly if it did not wrap; then exactly that region is added |
| `VMRegions.VMRegionAllocator.FreePages` | kernel/src/Memory/VMRegionAllocator.cpp:235-368 | takes effect exactly for a range in an allocated region that the test sees, or one that wraps; in order afterwards exactly if it neither wraps nor merges over the top, and then exactly the range is free |
| `VMRegions.VMRegionAllocator.ResizeAllocatedRegion` | kernel/src/Memory/VMRegionAllocator.cpp:378-404 | succeeds exactly for an allocated region of this size; keeps the allocator in order exactly for a range inside (or keys taken), and then splits without moving a page |
| `VMRegions.VMRegionAllocator.Fork` | kernel/src/Memory/VMRegionAllocator.cpp:406-438 | the copy has the same partition, index and counters |
| `VMRegions.VMRegionAllocator.AllocateThenFree` | kernel/src/Memory/VMRegionAllocator.cpp:83-153 | the round trip on the object: same partition and counters, one list rotated; the lists are the same if and only if nothing was allocated or no other free region has that size; all this exactly unless the region ends at 2^64 and merges with the one at 0 |
| `PageEntries.TableEntryBits` | kernel/src/arch/x86_64/Memory/PageTables.cpp:111-117 | a new table entry is present, is no large page, and grants what the flags ask for and no more; every other bit is that of the flags under the mask, or 0 |
| `PageEntries.WidenedBits` | kernel/src/arch/x86_64/Memory/PageTables.cpp:118-124 | passing through an entry adds exactly the rights asked for, takes none, and cannot set its size bit; every other bit is the union under the mask |
| `PageEntries.LeafEntryBits` | kernel/src/arch/x86_64/Memory/PageTables.cpp:104-109 | the leaf has the frame and exactly the rights asked for, no-execute included, and every other bit of the flags |
| `PageEntries.LargeEntryBits` | kernel/src/arch/x86_64/Memory/PageTables.cpp:194-232 | the same for a large leaf |
| `PageEntries.ReflaggedBits` | kernel/src/arch/x86_64/Memory/PageTables.cpp:137-142 | a remapped leaf keeps its frame and has exactly the rights asked for, no-execute included, and every other bit of the flags |
| `RadixTree.WalkLeaf` | kernel/src/arch/x86_64/Memory/PageTables.cpp:58-88 | in a tree the processor walk ends at the leaf for the address |
| `RadixTree.WalkOnlyLeaf` | kernel/src/arch/x86_64/Memory/PageTables.cpp:58-88 | what the walk finds is such a leaf |
| `RadixTree.SameTranslation` | kernel/src/arch/x86_64/Memory/PageTables.cpp:58-88 | trees with the same leaves translate alike |
| `RadixUpdate.PutTree` | kernel/src/arch/x86_64/Memory/PageTables.cpp:104-124 | writing an entry keeps the tree |
| `RadixUpdate.GrowTree` | kernel/src/arch/x86_64/Memory/PageTables.cpp:111-117 | hanging in a fresh empty table keeps the tree, with that table open |
| `RadixUpdate.PruneTree` | kernel/src/arch/x86_64/Memory/PageTables.cpp:179-191 | taking an empty table out keeps the tree, with its parent open |
| `RadixUpdate.LeafTranslate` | kernel/src/arch/x86_64/Memory/PageTables.cpp:104-109 | writing a leaf changes the translation of the addresses under it and of no other |
| `PageTables.NextInTree` | kernel/src/arch/x86_64/Memory/PageTables.cpp:27-56 | the next table exists exactly if the entry points to one |
| `PageTables.WriteLeaf` | kernel/src/arch/x86_64/Memory/PageTables.cpp:104-109 | the leaf of a mapping: tree kept, exactly its addresses change |
| `PageTables.Add` | kernel/src/arch/x86_64/Memory/PageTables.cpp:111-117 | a missing table is allocated, cleared and linked; no translation changes |
| `PageTables.Pass` | kernel/src/arch/x86_64/Memory/PageTables.cpp:118-124 | rights are added on the way; no translation changes |
| `PageTables.Enter` | kernel/src/arch/x86_64/Memory/PageTables.cpp:93-127 | one round of the loop; it stops exactly at a large page |
| `PageTables.Finish` | kernel/src/arch/x86_64/Memory/PageTables.cpp:104-109 | the last round |
| `PageTables.Round` | kernel/src/arch/x86_64/Memory/PageTables.cpp:93-127 | one round of the loop takes a frame exactly if the next table is missing |
| `PageTables.MapAt` | kernel/src/arch/x86_64/Memory/PageTables.cpp:90-128 | the loop of all three mapping functions: it maps exactly if no larger page and no table of smaller ones is in the way, and otherwise changes no translation; it takes exactly as many frames as tables were missing on the path |
| `PageTables.RemapAt` | kernel/src/arch/x86_64/Memory/PageTables.cpp:130-156 | the loop of RemapPage |
| `PageUnmap.FindLast` | kernel/src/arch/x86_64/Memory/PageTables.cpp:158-177 | the way down and the stack of entry pointers |
| `PageUnmap.IsEmpty` | kernel/src/arch/x86_64/Memory/PageTables.cpp:184-188 | the scan finds out whether a table has no present entry |
| `PageUnmap.PruneOne` | kernel/src/arch/x86_64/Memory/PageTables.cpp:181-190 | one round upwards: the table is freed exactly if it is empty |
| `PageUnmap.PruneUp` | kernel/src/arch/x86_64/Memory/PageTables.cpp:179-192 | the loop upwards: the frames given back are exactly the tables gone from the tree, each once; no translation changes |
| `PageUnmap.UnmapAt` | kernel/src/arch/x86_64/Memory/PageTables.cpp:158-192 | UnmapPage on the tables: the page is gone, every other translation stays, no table left is empty |
| `PageUnmap.GoneEmpty` | kernel/src/arch/x86_64/Memory/PageTables.cpp:179-192 | no address below a freed table has a translation |
| `PageTrees.PageTree.constructor` | kernel/src/arch/x86_64/Memory/PageTables.cpp:90-128 | an empty root translates nothing |
| `PageTrees.PageTree.MapPage` | kernel/src/arch/x86_64/Memory/PageTables.cpp:90-128 | the page translates to the frame asked for, with exactly the rights asked for along its whole path, every other address as before; no non-root table is empty; only the missing tables take frames |
| `PageTrees.PageTree.Map2MiBPage` | kernel/src/arch/x86_64/Memory/PageTables.cpp:194-232 | the same for 2 MiB |
| `PageTrees.PageTree.Map1GiBPage` | kernel/src/arch/x86_64/Memory/PageTables.cpp:298-333 | the same for 1 GiB |
| `PageTrees.PageTree.RemapPage` | kernel/src/arch/x86_64/Memory/PageTables.cpp:130-156 | a mapped page keeps its frame and has exactly the rights asked for along its whole path; the page is marked present even if it was not mapped, when its last table exists |
| `PageTrees.PageTree.UnmapPage` | kernel/src/arch/x86_64/Memory/PageTables.cpp:158-192 | the page is gone; exactly the tables that became empty are freed |
| `PageRights.RightsExact` | kernel/src/arch/x86_64/Memory/PageTables.cpp:105-152 | in every reachable tree, AND-ing write and user and OR-ing no-execute along the path gives exactly the flags of the leaf |
| `PageRights.OwnRights` | kernel/src/arch/x86_64/Memory/PageTables.cpp:104-109 | the rights of a leaf are those its flags ask for |
| `PageRights.MappedRights` | kernel/src/arch/x86_64/Memory/PageTables.cpp:90-128 | a walk to a leaf just mapped has exactly the rights its flags ask for |
| `PageRights.GetPhysicalAddress` | kernel/src/arch/x86_64/Memory/PageTables.cpp:58-88 | the loop returns the frame of the walk, 0 without one |
| `PageRuns.RemapExact` | kernel/src/arch/x86_64/Memory/PageTables.cpp:130-156 | RemapPage changes mapped pages only, if and only if the page is mapped or no page of its last table is |
| `PageRuns.RemapUnmapped` | kernel/src/arch/x86_64/Memory/PageTables.cpp:137-142 | a concrete run in which a page that was never mapped becomes present |
| `PageRuns.AlwaysMaps` | kernel/src/arch/x86_64/Memory/PageTables.cpp:90-128 | without large pages every page can be mapped |
| `PageRuns.NeighbourIffTable` | kernel/src/arch/x86_64/Memory/PageTables.cpp:158-192 | the last table of an address exists exactly if one of its pages is mapped |
| `PageRuns.Perform` | kernel/src/arch/x86_64/Memory/PageTables.cpp:90-192 | one call does to the walk what one step does to a flat map |
| `PageRuns.Run` | kernel/src/arch/x86_64/Memory/PageTables.cpp:90-192 | after every sequence of MapPage, RemapPage and UnmapPage, of any length, the walk equals the flat map, for every address; it stops only at a mapping with fewer free frames than missing tables |
| `RegionMapper.Covers` | kernel/src/arch/x86_64/Memory/PagingUtil.cpp:59-132 | a large page covers exactly its page numbers |
| `RegionMapper.ConvertBits` | kernel/src/arch/x86_64/Memory/PagingUtil.cpp:134-137 | the conversion moves PAT from bit 7 to bit 12 and keeps every other flag |
| `RegionMapper.LeafMeaning` | kernel/src/arch/x86_64/Memory/PagingUtil.cpp:134-137 | a large leaf has the frame and attributes the small ones in its place would have |
| `RegionMapper.RegionStep` | kernel/src/arch/x86_64/Memory/PagingUtil.cpp:59-132 | one more page of any size extends the mapped part of the region |
| `RegionMapper.ClearCanMap` | kernel/src/arch/x86_64/Memory/PagingUtil.cpp:59-132 | where nothing is mapped a page of any size can be |
| `RegionMapper.MapOne` | kernel/src/arch/x86_64/Memory/PagingUtil.cpp:59-132 | one call of the mapping function for a page size: it maps exactly if nothing is in the way, and takes frames for the missing tables only |
| `RegionMapper.MapSpan` | kernel/src/arch/x86_64/Memory/PagingUtil.cpp:72-84 | one loop of the mapper, whatever the alignment: the region is mapped so far, or its first page at an unaligned virtual address is lost |
| `RegionMapper.MapAround` | kernel/src/arch/x86_64/Memory/PagingUtil.cpp:70-106 | small pages, large pages, small pages |
| `RegionMapper.MapBoth` | kernel/src/arch/x86_64/Memory/PagingUtil.cpp:108-131 | the five loops with both large sizes |
| `RegionMapper.PathAdded` | kernel/src/arch/x86_64/Memory/PagingUtil.cpp:59-132 | of the tables a region still needs, a mapping uses up exactly as many as were missing on its path |
| `RegionMapper.FewTables` | kernel/src/arch/x86_64/Memory/PagingUtil.cpp:59-132 | the tables of a region of n pages number at most n/512 + n/2^18 + n/2^27 + 6 |
| `RegionMapper.LoseStep` | kernel/src/arch/x86_64/Memory/PagingUtil.cpp:81-84 | a large page tried at an unaligned virtual address leaves that address with a wrong frame or none |
| `RegionMapper.LostStep` | kernel/src/arch/x86_64/Memory/PagingUtil.cpp:59-132 | and no later call of the mapper repairs it |
| `RegionMapper.MapRegionWithLargestPages` | kernel/src/arch/x86_64/Memory/PagingUtil.cpp:59-132 | under all four combinations of support: every address of the region reaches its frame with its flags and every other translation is as before, if and only if the large pages used are aligned in virtual memory as in physical memory; then every page is mapped with the largest page the processor has whose aligned block lies in the region; the frames needed are those of the tables missing for the region |
| `RegionMapper.WithinIff` | kernel/src/arch/x86_64/Memory/PagingUtil.cpp:70-131 | the blocks that lie in a region are those between its first boundary and its last |
| `RegionMapper.LargestStep` | kernel/src/arch/x86_64/Memory/PagingUtil.cpp:59-132 | one more page of the largest size extends the stretch mapped with largest pages |
| `RegionMapper.ShiftedRegion` | kernel/src/arch/x86_64/Memory/PagingUtil.cpp:76-89 | a concrete region, 2 MiB at the second virtual page, that is not mapped right |
| `RegionMapper.SameMeaning` | kernel/src/arch/x86_64/Memory/PagingUtil.cpp:59-132 | so mapping with large pages and mapping each 4 KiB page send every address to the same frame with the same attributes |
| `HeapBlocks.SortedUnique` | kernel/src/Memory/Heap.cpp:274-280 | an address-sorted free list is determined by its elements |
| `HeapBlocks.TakenSizes` | kernel/src/Memory/Heap.cpp:54-64 | a rest is kept exactly if it holds at least 32 bytes, so the block is at most 32 bytes larger than the request |
| `HeapBlocks.TakenSectionOk` | kernel/src/Memory/Heap.cpp:53-75 | taking a block keeps the section: tiled, coalesced, aligned, free list exact, last block of 32 bytes |
| `HeapBlocks.FreedSectionOk` | kernel/src/Memory/Heap.cpp:151-231 | freeing a block with merges on both sides keeps the section |
| `Heap.LiveApart` | kernel/src/Memory/Heap.cpp:43-138 | live blocks are disjoint and their payloads 16-aligned |
| `Heap.HeadersApart` | kernel/src/Memory/Heap.cpp:43-261 | no header of a block lies in a live payload |
| `Heap.SectionApart` | kernel/src/Memory/Heap.cpp:43-261 | no header of a section lies in a live payload |
| `HeapWrites.HeadersMiss` | kernel/src/Memory/Heap.cpp:43-261 | writing headers of the heap writes no byte of a live payload |
| `HeapWrites.WroteUnlinked` | kernel/src/Memory/Heap.cpp:239-259 | unlinking a section writes the header of the section before it and no other |
| `Heap.SectionTest` | kernel/src/Memory/Heap.cpp:151-153 | the test of the section, which stops 32 bytes short of its end, holds of every live block |
| `Heap.SectionDetermined` | kernel/src/Memory/Heap.cpp:274-280 | the geometry of a section and its live blocks determine its blocks and free list |
| `Heap.UnusedTest` | kernel/src/Memory/Heap.cpp:236-261 | the test for a wholly free section is exact |
| `Heap.KeptLive` | kernel/src/Memory/Heap.cpp:236-261 | giving sections back loses no live block |
| `HeapAllocators.SearchSection` | kernel/src/Memory/Heap.cpp:50-82 | first fit in one section |
| `HeapAllocators.Search` | kernel/src/Memory/Heap.cpp:47-84 | first fit over the sections, none exactly if no free block is large enough |
| `HeapAllocators.Take` | kernel/src/Memory/Heap.cpp:53-75 | splitting and unlinking is the function on sections; every header but those it reports as written is as before |
| `HeapAllocators.FindSection` | kernel/src/Memory/Heap.cpp:151-153 | the section of a live block |
| `HeapAllocators.FindPlace` | kernel/src/Memory/Heap.cpp:154-204 | the place in the sorted free list |
| `HeapAllocators.Link` | kernel/src/Memory/Heap.cpp:154-230 | linking and merging is the function on sections; every header but those it reports as written is as before |
| `HeapAllocators.AllocateFrom` | kernel/src/Memory/Heap.cpp:53-78 | an allocation from an existing block: one new live block, large enough, counters exact |
| `HeapAllocators.AllocateNew` | kernel/src/Memory/Heap.cpp:97-138 | an allocation from a new section: the same |
| `HeapAllocators.ReleaseUnused` | kernel/src/Memory/Heap.cpp:236-261 | exactly the wholly free sections are given back; only section headers are written |
| `HeapAllocators.FreeBlock` | kernel/src/Memory/Heap.cpp:146-261 | exactly this block is no longer live, and the heap is in order |
| `HeapAllocators.TakenHeap` | kernel/src/Memory/Heap.cpp:53-75 | used + free + metadata = total after a take |
| `HeapAllocators.PushHeap` | kernel/src/Memory/Heap.cpp:97-132 | and after a new section |
| `HeapAllocators.LinkedHeap` | kernel/src/Memory/Heap.cpp:151-231 | and after linking a block back |
| `HeapAllocators.KeptHeap` | kernel/src/Memory/Heap.cpp:236-261 | and after giving sections back |
| `HeapAllocators.Restored` | kernel/src/Memory/Heap.cpp:43-264 | one allocation and its release restore the section list and all free lists |
| `HeapAllocators.AlignedExact` | kernel/src/Memory/Heap.cpp:43-45 | the 64-bit request holds the size if and only if that is at most 2^64 - 16; beyond it is for nothing |
| `HeapAllocators.HugeRequest` | kernel/src/Memory/Heap.cpp:43-79 | a concrete request for 2^64 - 1 bytes that a heap of 128 KiB serves |
| `HeapAllocators.HeapAllocator.constructor` | kernel/src/Memory/Heap.cpp:37-38 | an empty heap |
| `HeapAllocators.HeapAllocator.Allocate` | kernel/src/Memory/Heap.cpp:43-138 | a new live block of at least the request and at most 32 bytes more, and so of the size, less than 48 bytes too large, if that is at most 2^64 - 16; 16-aligned, from the first fit or a new section; null only if no block fits and no section is given; every header outside the reported set is as before, and that set misses every payload live before or after |
| `HeapAllocators.HeapAllocator.Free` | kernel/src/Memory/Heap.cpp:140-264 | exactly this block is no longer live; no wholly free section is kept; the counters are exact; every header outside the reported set is as before, and that set misses every payload live before or after |
| `HeapAllocators.HeapAllocator.AllocateThenFree` | kernel/src/Memory/Heap.cpp:43-264 | the sections, the free lists and all four counters are as before |
| `PickNext.SelectLevel` | kernel/src/Scheduling/Scheduler.cpp:466-481 | the loop over the levels picks the last eligible level, none exactly if all are empty |
| `PickNext.Count` | kernel/src/Scheduling/Scheduler.cpp:503-513 | the counts after the pick |
| `PickNext.Restart` | kernel/src/Scheduling/Scheduler.cpp:509-513 | the loop of resets: exactly the levels from the given one on that reached their maximum restart, all of them for the idle pick |
| `PickNext.Steal` | kernel/src/Scheduling/Scheduler.cpp:526-567 | the stealing pick: the first other processor with a thread, the level chosen by the counts of this processor and the queues of that one |
| `PickNext.PickNext` | kernel/src/Scheduling/Scheduler.cpp:457-524 | the whole call: an own level if there is a thread, else a stolen thread, else idle, with the counts each leaves |
| `PickNext.PickUnique` | kernel/src/Scheduling/Scheduler.cpp:466-481 | the level is determined |
| `PickNext.CountsBounded` | kernel/src/Scheduling/Scheduler.cpp:457-567 | no run count exceeds MAX_RUN_COUNT after any pick: own, stolen or idle |
| `PickNext.RunDigits` | kernel/src/Scheduling/Scheduler.cpp:457-567 | nor in any state of any run from the zeroed counts |
| `PickNext.PicksOwn` | kernel/src/Scheduling/Scheduler.cpp:457-524 | while a level of its own is non-empty a processor picks its own |
| `PickNext.ValueGrows` | kernel/src/Scheduling/Scheduler.cpp:457-524 | a pick above a level makes the counts from there, read in base 3, grow |
| `PickNext.WaitBound` | kernel/src/Scheduling/Scheduler.cpp:457-524 | the ranking function is at most 2*3^(15-m) |
| `PickNext.WaitShrinks` | kernel/src/Scheduling/Scheduler.cpp:457-524 | every pick of another level makes it fall |
| `PickNext.BoundedWaiting` | kernel/src/Scheduling/Scheduler.cpp:457-567 | in every run from the zeroed counts, a level that stays non-empty from any time on is picked within 2*3^(15-m) calls, whatever arrives elsewhere |
| `PickNext.CountsUp` | kernel/src/Scheduling/Scheduler.cpp:457-524 | with threads at every level one pick adds exactly 1 to the counts read in base 3 |
| `PickNext.CounterRun` | kernel/src/Scheduling/Scheduler.cpp:44-524 | so after t calls from the zeroed counts they read t |
| `PickNext.Turns` | kernel/src/Scheduling/Scheduler.cpp:44-524 | with threads at every level, call number n takes level m exactly if 3^(15-m) is the highest power of 3 dividing n, up to 3^15 |
| `PickNext.FirstTurn` | kernel/src/Scheduling/Scheduler.cpp:44-524 | level m has its first turn in call number 3^(15-m), and not before |
| `Placement.SteppedCount` | kernel/src/Scheduling/Scheduler.cpp:189-455 | every step moves threads without losing or doubling one: scheduling adds a place, reaping takes one, any other step none |
| `Placement.NotElsewhere` | kernel/src/Scheduling/Scheduler.cpp:526-567 | a thread on one processor is on no other |
| `Placement.OtherHome` | kernel/src/Scheduling/Scheduler.cpp:189-455 | a step of one processor leaves the threads of the others at their level and processor |
| `Placement.OwnHome` | kernel/src/Scheduling/Scheduler.cpp:189-455 | and keeps its own there |
| `Placement.StepInv` | kernel/src/Scheduling/Scheduler.cpp:189-567 | every step keeps the whole-system invariant |
| `Placement.BootedInv` | kernel/src/Scheduling/Scheduler.cpp:569-578 | it holds at the start |
| `Placement.RunInv` | kernel/src/Scheduling/Scheduler.cpp:189-567 | it holds in every state of every run |
| `Placement.OnePlace` | kernel/src/Scheduling/Scheduler.cpp:189-567 | in every state of every run a live thread is in exactly one place, and a queued one at its nice level on the processor its CPUInfo names |
| `Placement.StepMoves` | kernel/src/Scheduling/Scheduler.cpp:189-567 | for every step, the place the one thread it moves comes from and the place it goes to: it leaves from the front of a ready queue or of the dead list, or from its position, and comes to the end of its destination; every other place, in order, is as before |
| `Placement.OthersStay` | kernel/src/Scheduling/Scheduler.cpp:189-567 | every other thread keeps its place and its turn there |
| `Placement.ComesAndGoes` | kernel/src/Scheduling/Scheduler.cpp:189-567 | a thread comes into a place only by a step that leads there, and leaves it only by one that starts there |
| `Placement.CameBy` | kernel/src/Scheduling/Scheduler.cpp:189-567 | in every run a thread found in a place came by such a step and has been there since |
| `Placement.WaiterBlocked` | kernel/src/Scheduling/Semaphore.cpp:43-75 | a thread in a wait queue blocked on that queue, from the processor it was leaving, and has been there since |
| `Placement.WaiterPopped` | kernel/src/Scheduling/Semaphore.cpp:77-91 | it leaves that queue only when a waker pops it from there, into whose hands it goes |
| `ThreadLists.OwnThread` | kernel/src/Scheduling/ThreadList.cpp:32-103 | the checks of pushBack and remove are right about threads of their own list |
| `ThreadLists.OtherThread` | kernel/src/Scheduling/ThreadList.cpp:32-103 | a thread of another list passes the check of pushBack exactly if it is alone there, and that of remove exactly if it is neither first nor last there |
| `ThreadLists.PushCheck` | kernel/src/Scheduling/ThreadList.cpp:32-36 | with all lists in order pushBack lets through exactly the threads in no list and the only threads of other lists |
| `ThreadLists.OtherLinked` | kernel/src/Scheduling/ThreadList.cpp:32-103 | a list whose threads are not touched stays linked |
| `ThreadLists.LinkLast` | kernel/src/Scheduling/ThreadList.cpp:32-58 | pushBack on the links: the list grows by the thread at its end, in both directions |
| `ThreadLists.UnlinkFirst` | kernel/src/Scheduling/ThreadList.cpp:60-77 | popFront on the links |
| `ThreadLists.RemoveCheck` | kernel/src/Scheduling/ThreadList.cpp:79-85 | with all lists in order remove lets through exactly the threads of the list and those inside another one |
| `ThreadLists.UnlinkedOwn` | kernel/src/Scheduling/ThreadList.cpp:79-103 | remove on the links, of a thread of the list: exactly this thread leaves, its links are null |
| `ThreadLists.PushedTwice` | kernel/src/Scheduling/ThreadList.cpp:32-58 | a concrete push that passes the assertion and puts a thread into two lists |
| `ThreadLists.RemovedFromOther` | kernel/src/Scheduling/ThreadList.cpp:79-103 | a concrete remove that passes the assertion of the wrong list and spoils its count |
| `ThreadLists.Changed` | kernel/src/Scheduling/ThreadList.cpp:32-103 | a change of one list keeps all lists of the processor in order |
| `ThreadLists.Wake` | kernel/src/Scheduling/Scheduler.cpp:330-340 | a sleeper moves to the end of its ready queue |
| `ThreadLists.WakeSleepers` | kernel/src/Scheduling/Scheduler.cpp:326-344 | enumerating while the callback removes visits every sleeper once, in order: the expired ones are queued by level, the others have their time reduced |
| `ThreadLists.WhereSleepersGo` | kernel/src/Scheduling/Scheduler.cpp:326-344 | a sleeper stays asleep exactly if its time is not over, and else is on the queue of its level and no other |
| `ThreadLists.ProcessorLists.constructor` | kernel/src/Scheduling/ThreadList.cpp:26-27 | empty lists |
| `ThreadLists.ProcessorLists.PushBack` | kernel/src/Scheduling/ThreadList.cpp:32-58 | this list grows by the thread; all lists stay linked and disjoint if and only if the thread was in none of them |
| `ThreadLists.ProcessorLists.PopFront` | kernel/src/Scheduling/ThreadList.cpp:60-77 | the first thread leaves, null exactly if the list is empty |
| `ThreadLists.ProcessorLists.Remove` | kernel/src/Scheduling/ThreadList.cpp:79-103 | exactly this thread leaves; the lists stay in order if and only if the thread was in this list |
| `ThreadLists.ProcessorLists.Tick` | kernel/src/Scheduling/Scheduler.cpp:326-344 | the sleeping part of a timer tick on all the lists |
| `Shootdown.StepInv` | kernel/src/arch/x86_64/interrupts/NMI.cpp:56-99 | every step of every processor, each access to the record being its own step, keeps the protocol invariant |
| `Shootdown.AcknowledgeStep` | kernel/src/arch/x86_64/interrupts/NMI.cpp:185-222 | the acknowledgement counter is the number of processors that have handled the request |
| `Shootdown.AckedStep` | kernel/src/arch/x86_64/interrupts/NMI.cpp:185-222 | the steps between the acknowledgement and the release of the lock, also with the next raiser under way |
| `Shootdown.RunInv` | kernel/src/arch/x86_64/interrupts/NMI.cpp:56-99 | the invariant holds in every state of every run, for any number of processors and any order of delivery |
| `Shootdown.ShootdownComplete` | kernel/src/arch/x86_64/interrupts/NMI.cpp:56-99 | when a waiting Raise returns every other processor has invalidated exactly this range, exactly once |
| `Shootdown.CallKept` | kernel/src/arch/x86_64/interrupts/NMI.cpp:56-99 | whatever the others do, a call keeps the range it began with, and no other request is sent while its own is out |
| `Shootdown.RequestServed` | kernel/src/arch/x86_64/interrupts/NMI.cpp:56-99 | from the start of a Raise with a range to its return: since it sent its NMIs every other processor has invalidated exactly that range, exactly once |
| `Shootdown.RunInUse` | kernel/src/arch/x86_64/interrupts/NMI.cpp:56-222 | in every run a record that is set is being filled, is about to be sent, or has not been dealt with by some processor |
| `Shootdown.QuietIsClear` | kernel/src/arch/x86_64/interrupts/NMI.cpp:185-222 | when no call and no handler is under way the record is clear again |
| `Shootdown.NoMixture` | kernel/src/arch/x86_64/interrupts/NMI.cpp:185-222 | what a processor invalidates is the range of the one raiser that waits, never put together from two requests |
| `Shootdown.WorkFalls` | kernel/src/arch/x86_64/interrupts/NMI.cpp:56-99 | every step but the start of a Raise uses up work, so calls under way end |
| `Shootdown.NoDeadlock` | kernel/src/arch/x86_64/interrupts/NMI.cpp:56-99 | unless all is quiet some processor can go on |
| `Semaphores.StepInv` | kernel/src/Scheduling/Semaphore.cpp:43-91 | every critical section keeps 0 <= value <= max and: while threads are queued, those on their way to recheck number at least the value |
| `Semaphores.RecheckInv` | kernel/src/Scheduling/Semaphore.cpp:43-75 | also when a newcomer has taken the value and the thread queues again |
| `Semaphores.NoLostWakeup` | kernel/src/Scheduling/Semaphore.cpp:43-91 | with threads queued and a positive value, a popped thread can take it now |
| `Semaphores.RunInv` | kernel/src/Scheduling/Semaphore.cpp:43-91 | the invariant holds over every interleaving |
| `Semaphores.Conserved` | kernel/src/Scheduling/Semaphore.cpp:43-91 | when only holders signal, value plus holders is always the maximum |
| `Semaphores.MutualExclusion` | kernel/src/Scheduling/Semaphore.cpp:43-91 | a mutex that only its holder unlocks never has two holders |
| `Semaphores.BlockedStep` | kernel/src/Scheduling/Semaphore.cpp:43-91 | a waiting thread goes on waiting, whatever step is taken, until it takes the value itself |
| `Semaphores.WaitsUntilTaken` | kernel/src/Scheduling/Semaphore.cpp:43-91 | in every run a thread that no longer waits has found the value positive, by a look of its own, and holds it |
| `Semaphores.HoldersStep` | kernel/src/Scheduling/Semaphore.cpp:43-91 | a holder is made only by taking one from the value, and unmade only by its own Signal, which adds one |
| `Semaphores.RunningSince` | kernel/src/Scheduling/Semaphore.cpp:43-75 | threads switch away exactly from the step on that starts the scheduler |
| `Semaphores.QueueInOrder` | kernel/src/Scheduling/Semaphore.cpp:43-91 | in every run the queue is in the order in which its threads joined it |
| `Semaphores.FirstInFirstOut` | kernel/src/Scheduling/Semaphore.cpp:77-91 | a Signal below the maximum makes exactly one queued thread runnable, the one that has waited longest; all others stay |
| `Semaphores.Semaphore.constructor` | kernel/src/Scheduling/Semaphore.cpp:28-30 | the fresh state |
| `Semaphores.NoSignalDropped` | kernel/src/Scheduling/Semaphore.cpp:77-91 | when only holders signal, no Signal finds the value at its maximum and is dropped |
| `Semaphores.Semaphore.Wait` | kernel/src/Scheduling/Semaphore.cpp:43-75 | the step of the protocol, invariant kept; the value is taken exactly if it was positive |
| `Semaphores.Semaphore.Resume` | kernel/src/Scheduling/Semaphore.cpp:43-75 | the recheck, the same |
| `Semaphores.Semaphore.Signal` | kernel/src/Scheduling/Semaphore.cpp:77-91 | the step of the protocol, invariant kept: below the maximum the value grows by one and the first thread of the queue, if any, is popped |
| `Futex.WakeLoop` | kernel/src/SystemCalls/Futex.cpp:86-102 | the loop releases a prefix of the queue, in order, and returns its length; it is min(n, waiting) long if and only if n <= INT_MAX or nobody waits |
| `Futex.WakesNobody` | kernel/src/SystemCalls/Futex.cpp:86-102 | a concrete call, with 2^31 and one thread waiting, that releases nobody |
| `Futex.StepInv` | kernel/src/SystemCalls/Futex.cpp:45-152 | every step keeps: the lock has one owner, the queue holds the queued threads once each, the reference count is exact |
| `Futex.NeverFreed` | kernel/src/SystemCalls/Futex.cpp:141-152 | PutFutex never brings the count to 0: the queue object is never freed |
| `Futex.CoversAll` | kernel/src/SystemCalls/Futex.cpp:86-139 | right after a Wake that covers the queue, or finds no queue object, nobody waits on an earlier value |
| `Futex.SinceStep` | kernel/src/SystemCalls/Futex.cpp:45-152 | and no later step brings such a waiter back |
| `Futex.RunInv` | kernel/src/SystemCalls/Futex.cpp:45-152 | the invariant holds in every run |
| `Futex.NoLostWakeup` | kernel/src/SystemCalls/Futex.cpp:45-152 | after a covering Wake no thread is ever queued that read the word before the stores made by then |
| `Futex.SleptOnExpected` | kernel/src/SystemCalls/Futex.cpp:45-84 | in every run a queued thread read the value it expected, at a step after which it has done nothing but join the queue |
| `Futex.Argument` | kernel/src/SystemCalls/Futex.cpp:45-102 | a thread acts on the argument of its own call: since it made it, it has only waited for the lock |
| `Futex.WordIsLast` | kernel/src/SystemCalls/Futex.cpp:45-61 | the word holds what was stored last |
| `Futex.OwnPace` | kernel/src/SystemCalls/Futex.cpp:45-152 | whatever the others do, a thread that is not queued stays where it is in its call |
| `Futex.ReadDecides` | kernel/src/SystemCalls/Futex.cpp:57-70 | in every run a wait goes on to join the end of the queue exactly if the word has the value it was called with, and returns otherwise: its next step is the one or the other |
| `Futex.CanGoOn` | kernel/src/SystemCalls/Futex.cpp:45-152 | no deadlock: a thread in a call that does not sleep can go on, or the holder of the lock can |
| `Futex.WakeAll` | kernel/src/SystemCalls/Futex.cpp:86-102 | the step of the protocol is what the loop of Wake does |
| `Futex.QueueInOrder` | kernel/src/SystemCalls/Futex.cpp:45-116 | in every run the queue is in the order in which its threads joined it |
| `Futex.WakesLongest` | kernel/src/SystemCalls/Futex.cpp:86-102 | in every run a Wake of n makes the n threads runnable that have waited longest, all if fewer wait, none if n is above INT_MAX |
| `Dates.EraIsFloor` | kernel/src/HAL/Time.cpp:109-116 | the truncating division with its correction is the floor, for negative years too |
| `Dates.NextAdds` | kernel/src/HAL/Time.cpp:109-116 | the next calendar day is exactly one more, for every valid date |
| `Dates.EpochIsZero` | kernel/src/HAL/Time.cpp:109-116 | 1970-01-01 gives 0 |
| `Dates.CountsDays` | kernel/src/HAL/Time.cpp:109-116 | n days later is n more |
| `Dates.Reaches` | kernel/src/HAL/Time.cpp:109-116 | every later date is reached by counting days |
| `Dates.DaysAreCalendarDays` | kernel/src/HAL/Time.cpp:109-116 | the function is the number of calendar days from the epoch, negative before it |
| `Dates.PosixFormula` | kernel/src/HAL/Time.cpp:100-107 | the seconds are those of the formula of POSIX.1-2017 Base Definitions section 4.16 |
| `Dates.DaysInOrder` | kernel/src/HAL/Time.cpp:109-116 | a date is before another exactly if its number is less |
| `Dates.DatesThatFit` | kernel/src/HAL/Time.cpp:109-116 | no intermediate result leaves 32 bits if and only if the date lies between -5877641-06-23 and 5879610-09-09 |

## Left out

- WavlRaw.RawTree: keys are numbers compared by <; the augmentation hooks, RB_REINSERT, RB_INSERT_NEXT and RB_INSERT_PREV are not modelled.
- AVLTree.hpp: the forEach overloads only call back for each element; the trees of the region allocator are maps with the lookups the tree is proved to offer.
- CopyOnWrite: kernel operations are atomic; map entries are kept per page, so the sharing and counting of whole anon maps is flattened; only private anonymous entries are modelled, not objects, munmap, mprotect or MapPages.
- CopyOnWrite.AddressSpaces.RemapPage: the mapper is one that leaves pages without a mapping alone; what the real one does is `PageTrees.PageTree.RemapPage`.
- VMRegions.VMRegionAllocator: the lock, Delete and the storage of nodes are not modelled; counts are positive and ranges are given in pages; the counters are numbers without a width; a result at address 0 is told apart from failure, which the null pointer of the source is not.
- VMRegions.VMRegionAllocator.FreePages: without the exact flag, counts that do not fit the 62-bit size of a node are not modelled; the second removal of a node that finds itself is taken as one that does nothing.
- VMRegions.VMRegionAllocator.ResizeAllocatedRegion: the new range is one of the 64-bit address space; a count that wraps around it is not modelled.
- PageTrees.PageTree: four levels; Remap and Unmap of large pages are not modelled; a mapping call has a free frame for every missing table on its path, since the source uses the frames without a test; frame 0 holds no table; TLB contents are not modelled.
- RegionMapper.MapRegionWithLargestPages: the region is page-aligned and has no translations before, and there are frames for the missing tables; that the calls in PagingInit.cpp:92-118 meet the alignment condition is not shown; the processor features are parameters.
- HeapAllocators.HeapAllocator: the section allocator is a parameter that returns memory apart from every section; GetSize, krealloc and kcalloc are not modelled.
- HeapAllocators.HeapAllocator.Allocate: a section is of the size the request needs; for requests within 131119 bytes of 2^64 the source asks for a size that has wrapped, which is not modelled.
- HeapAllocators.HeapAllocator.Free: the pointer is null or that of a live block; the source does not detect others.
- PickNext.PickNext: the queues are given by their lengths; popping the chosen thread, the locks and the idle thread itself are not part of it.
- Placement: idle threads are not counted; blocking and switching away are one step; nice levels do not change; a forced yield of a thread that is not idle is the step Requeue; a thread in someone's hands may be put down in any order.
- ThreadLists: the list of the threads of a process and EnumerateConst are not modelled; AddExistingThread clears the links before it pushes, which changes nothing for a thread in no list.
- Semaphores.Semaphore: spinning without a scheduler is one step per look at the value; destruction with waiting threads is not modelled.
- Futex: one address of one process; Remove, on behalf of a timeout or a signal, is a step that may happen at any time; joining the queue and switching away are one step; reading the word does not fault.
- Shootdown: weak memory ordering, the per-processor NMI requests, ForceAllowRaise and Raise without waiting are not modelled; an NMI that arrives during a handler stays pending.
- PMM, TempFS, VFS, ELF loading, drivers, interrupts, assembly and string routines are not part of this model.
