# Baggy bounds checking: allocator, bounds check, instrumentation

This project models the parts of a 32-bit baggy bounds checker that its safety
rests on, and proves what they promise.

* **The buddy allocator** (`Bits`, `Words`, `Sequences`, `BuddyHeap`,
  `HeapTheorems`, `HeapOrder`, `FreeLists`, `SizeTable`, `HeapFrame`, `Programs`,
  `ProgramLaws`, `Allocator`).
  `BuddyHeap` describes the heap as a value: the blocks that tile it, and the
  order of every free list. `Allocator.BuddyAllocator` is the code: loops over
  the byte table and stores of list nodes into the bytes of the free blocks
  themselves. Its methods are proved to do to the value what `BuddyHeap` says.
  `HeapTheorems` proves that the free blocks are exactly the maximal vacant
  aligned intervals, so they follow from the live blocks alone; `HeapOrder` adds
  which of them malloc takes and in which order the lists stand. `Programs` says
  what a program sees: pointers, the bytes it has written, and the regions it has
  registered, over runs that mix calls, loads, stores and registrations;
  `ProgramLaws` tells the same from the calls and their answers alone.
  `Allocator.Session` puts both together: after initialisation and any such run,
  tiling, table and lists in memory agree, every load has read what was last
  stored, and every region can be recovered.
* **The bounds check** (`BoundsCheck`). The slow path with its 32-bit wrap-around,
  the inlined fast path, and sequences of pointer steps. The verdict of every
  single step is characterised for every offset; walks never reach another live
  block.
* **The size computation of the compiler side** (`Sizes`).
* **The instrumenting pass** (`IR`, `Instrument`, `Simulation`,
  `InstrumentedRuns`, `ProgramRegions`). The pass runs on a small
  block-structured code, mutating the list of blocks while it walks over it. The
  instrumented program is proved to simulate the source program, run by run,
  until a pointer or a memset leaves its window.
* **Three algorithms beside it**: the escape analysis (`EscapeTracking`), the
  lazily propagated segment tree of the seating benchmark (`Runs`, `Seating`),
  and the in-place three-way quicksort (`QuickSort`).

Powers of two, shifts and alignment are defined one bit at a time, which keeps
the arithmetic linear. Memory is an array of bytes, with words in little-endian
order at any address; the table is an array of bytes, one for each 16-byte slot
below 2^31.

Assumptions, all of them preconditions or part of an invariant:

* `sbrk` succeeds and nobody else calls it. The tests `ptr < 0`
  (lib/allocator.c:136 and :175) compare a pointer with zero and never fire, so
  growth has to stay below the area reserved for the stack
  (lib/address_constants.h:3).
* A slot below the heap carries the USED bit that initialisation gives it, or
  belongs to a registered region whose buddy starts below the heap.
  `SizeTable.RegistrationReserved` shows that registering such a region keeps
  this, and `SizeTable.HarmfulRegion` what every other one does.
* `free` and `realloc` get the null pointer or the start of a live block.
* Shift counts are taken modulo 32, as the machine does. The C code shifts by a
  table byte that carries the USED bit (lib/baggy_slowpath.c:29-32), which the
  language leaves undefined; the pass masks it
  (pass/BaggyBounds/BaggyBoundsPointers.cpp:92).

What turned out not to hold is stated exactly, with the inputs that fail:

* `BuddyHeap.BlockHoldsRequest`: requests above 2^31 get 16 bytes.
* `HeapTheorems.CopyFitsIff` and `HeapTheorems.CopyOverruns`: a reallocation of
  more than one slot to such a size copies past the new block.
* `HeapTheorems.CallocHoldsIff`: products above 2^31 get a block that is too small.
* `SizeTable.LooksFreeExact`, `SizeTable.HarmfulRegion` and
  `Programs.LooksFreeFails`: a region below the heap whose buddy lies in it, and
  which therefore reaches up to the heap or into it, passes for a free block. The
  region of the last global can be one, as globals are aligned but not padded.
* `BoundsCheck.StepRightIff` and `BoundsCheck.WrapAccepted`: offsets that wrap
  into the window. From inside a block no 32-bit offset does
  (`BoundsCheck.StepRightInside`).
* `Simulation.EqualityIff` and `Simulation.EqualityFails`: one past the end of a
  block against the start of the next.
* `InstrumentedRuns.MemSetWritesFirst` and `InstrumentedRuns.MemSetPassesIff`: a
  memset is carried out before its check, which lets its end go half a slot
  beyond the block.
* `Seating.Node.GetLocation`, `Seating.Simulate` and `Seating.LoneSeatTwice`: a
  tree of fewer than two seats.

Where comments and code disagree, the model follows the code: the comment at
lib/baggy_init.c:18-19 gives the table 2^18 bytes, the code maps 2^28; the
comment at pass/BaggyBounds/Util.cpp:8-10 promises a size that is large enough,
which fails above 2^31; the comments at
pass/BaggyBounds/EscapeTracking.cpp:120-131 speak of `nocapture` arguments, but
every argument counts as captured.

`dafny verify dfyconfig.toml` verifies the project.

## Model

| member | source | states |
|---|---|---|
| `Bits.BuddyHalves` | lib/allocator.c:234-237 | the address computed by flipping one bit is the other half of an aligned block twice as large, and flipping again comes back |
| `Bits.LowBitCarry` | lib/allocator.c:128-148 | adding the lowest set bit at least doubles the lowest set bit, so the growth loop ends, and what lies below it never grows |
| `BuddyHeap.BlockLogLeast` | lib/allocator.c:152-162 | the size class is the least power of two that is at least 16 and at least the request, for requests up to 2^31 |
| `BuddyHeap.BlockHoldsRequest` | lib/allocator.c:156-160 | the block is large enough if and only if the request is at most 2^31 |
| `BuddyHeap.FirstFit` | lib/allocator.c:164-168 | the chosen bin is non-empty and every bin below it, from the size class up, is empty |
| `BuddyHeap.RootBlock` | lib/allocator.c:124-150 | a block taken from growth is aligned to its size, and its buddy starts below the heap |
| `BuddyHeap.GrowOk` | lib/allocator.c:128-147 | one round of growth keeps tiling and lists, changes no live block, and creates no pair of free buddies |
| `BuddyHeap.GrowForOk` | lib/allocator.c:124-150 | growth ends with a free block of the requested size or more at the top of the heap, first of its bin |
| `BuddyHeap.SplitOnceOk` | lib/allocator.c:184-193 | giving the right half back keeps tiling and lists, shrinks the used block, and creates no pair of free buddies |
| `BuddyHeap.MergeOk` | lib/allocator.c:238-253 | merging two free buddies keeps tiling and lists and every live block, and removes the only pair of free buddies there was |
| `BuddyHeap.MallocOk` | lib/allocator.c:152-198 | malloc keeps tiling, lists and the absence of free buddies, and adds exactly one live block, of the least sufficient size, that was not live before |
| `BuddyHeap.CoalesceOk` | lib/allocator.c:232-257 | coalescing changes no live block, leaves no free buddies, and ends with a free block around the freed one |
| `BuddyHeap.FreeOk` | lib/allocator.c:223-258 | free takes exactly the given block out of the live ones and restores the absence of free buddies |
| `HeapTheorems.CopyFitsIff` | lib/allocator.c:208-217 | what a reallocation copies stays inside the new block if and only if the request is at most 2^31 or the old block is one slot |
| `HeapTheorems.CopyOverruns` | lib/allocator.c:208-217 | in every other case the copy runs past the new block, into another block if the heap goes on there |
| `HeapTheorems.CallocHoldsIff` | lib/allocator.c:260-266 | the block holds all elements if and only if the product is at most 2^31 |
| `HeapTheorems.VacantInOneBlock` | lib/allocator.c:232-257 | every vacant aligned interval lies inside one free block |
| `HeapTheorems.FreeIffMaximal` | lib/allocator.c:232-257 | a block is free if and only if it is a maximal vacant aligned interval |
| `HeapTheorems.LiveDeterminesBlocks` | lib/allocator.c:185-257 | two heaps with the same live blocks and the same end have the same blocks, and the same members in every bin |
| `HeapTheorems.GrowsIffNoRoom` | lib/allocator.c:164-178 | malloc grows the heap if and only if no vacant aligned interval of the needed size exists |
| `HeapTheorems.MallocFits` | lib/allocator.c:152-198 | malloc's result lies in the heap, is aligned to its size, and is the smallest block that holds the request |
| `HeapTheorems.MallocDisjoint` | lib/allocator.c:152-198 | malloc's result overlaps no live block |
| `HeapTheorems.FreeUndoesMalloc` | lib/allocator.c:152-258 | freeing what malloc just returned restores every block and every bin's members |
| `HeapTheorems.FreedBlockIsReused` | lib/test.c:140-152 | a free followed by a malloc of the same size class always succeeds without growing the heap |
| `HeapOrder.MallocTakesFirst` | lib/allocator.c:163-197 | with a free block of the size class or above, the result is the first block of the first bin that has one; its bin loses its head, every bin from the size class up to there holds just the half split off, and no other bin changes |
| `HeapOrder.MallocGrows` | lib/allocator.c:124-178 | with none, the result is the first multiple of the size from the heap's end on, the heap ends one lowest set bit behind it, and every bin keeps its order behind at most one new block |
| `HeapOrder.FreeBins` | lib/allocator.c:223-257 | free puts the coalesced block in front of its bin, takes the blocks it has absorbed out of theirs, and leaves every other entry in its place |
| `HeapOrder.FreedBlockNext` | lib/allocator.c:152-258 | a freed block whose buddy is not free is what malloc returns next for that size class |
| `FreeLists.HeapStartFirst` | lib/allocator.c:89-113 | the heap starts at the first slot behind 64 sentinels of twelve bytes |
| `FreeLists.AppendOk` | lib/list.h:18-24 | appending puts the block at the front of its bin in memory and leaves every other list as it was |
| `FreeLists.RemoveOk` | lib/list.h:26-31 | removing takes the block out of its bin in memory and leaves every other list as it was |
| `FreeLists.EmptyIffDummy` | lib/list.h:14-16 | the node behind the first sentinel is a dummy if and only if the bin is empty, and is the bin's first block otherwise |
| `FreeLists.WalkBin` | lib/list.h:4-12 | following next from one sentinel, or prev from the other, visits the bin's blocks in order and in reverse order |
| `SizeTable.FormMetadata` | lib/allocator.c:65-75 | log and USED bit can be read back from the byte |
| `SizeTable.MarkStep` | lib/allocator.c:36-51 | marking one block makes the table agree with it and leaves the bytes of every other block right |
| `SizeTable.SlotShowsBlock` | lib/allocator.c:36-75 | every slot of the heap shows the log and USED bit of the block it lies in, whose start is the address rounded down to that size |
| `SizeTable.BuddyInRange` | lib/allocator.c:234-239 | the buddy lookup stays below the heap's end, and a buddy that starts in the heap ends in it |
| `SizeTable.LooksFreeExact` | lib/allocator.c:234-239 | "same log and free" at the buddy's address means one whole free block of that size, if and only if no slot below the heap carries the bare log there |
| `SizeTable.LooksFreeReserved` | lib/allocator.c:115-121 | with slots below the heap that are marked as initialisation does, or belong to harmless regions, the test is exact without exception |
| `SizeTable.RegistrationReserved` | lib/util.c:4-8 | registering a region whose buddy starts below the heap, or one that lies above, keeps the slots below the heap so |
| `SizeTable.HarmfulRegion` | lib/util.c:4-8 | for every other region below the heap, the first block of its size that growth makes is its buddy, and the test takes the registered region for a free block |
| `HeapFrame.AppendUntouched` | lib/list.h:18-24 | appending a free block writes no byte of any live block, none of the program's below the sentinels, and none above the heap |
| `HeapFrame.RemoveUntouched` | lib/list.h:26-31 | removing a block writes no byte of any live block, none of the program's below the sentinels, and none above the heap |
| `Programs.EveryRunSafe` | lib/allocator.c:152-266 | in every state of every run of malloc, calloc, free, realloc, loads, stores and registrations, as far as reallocations and cleared blocks fit, the blocks tile the heap, the bins list exactly the free blocks, no two free buddies are left, and every byte the program relies on is a global's or in a live block |
| `Programs.ReachableSafe` | lib/allocator.c:89-266 | after every run from initialisation the free blocks are exactly the maximal aligned intervals that the live blocks leave |
| `Programs.ByteKept` | lib/allocator.c:152-266 | from any point of a run on, a byte of a global or of a block live there keeps its value for as long as the program does not store to it and does not give its block to free or realloc |
| `Programs.LooksFreeFails` | pass/BaggyBounds/BaggyBoundsGlobals.cpp:38-47 | with a break of 5376, a last global of 1280 bytes at 4096, registered with log 11, is taken for the free buddy of the heap's first block of that size, at 6144 |
| `ProgramLaws.BooksRight` | lib/allocator.c:152-266 | at every point of a run the live blocks are exactly those that malloc, calloc and realloc have returned, with their size classes, less those given to free or realloc |
| `ProgramLaws.GivenApart` | lib/allocator.c:152-266 | every pointer returned is aligned to its size class, above the globals, and apart from every live block |
| `ProgramLaws.StoreReads` | lib/allocator.c:152-266 | after a store a load of that byte is legal and gives what was stored |
| `ProgramLaws.ClearReads` | lib/allocator.c:260-266 | after calloc a load of any of its first bytes, as many as the product has modulo 2^32, gives 0 |
| `ProgramLaws.CopyReads` | lib/allocator.c:200-221 | after realloc a load at the new place gives what one at the old place would have given, up to the size requested |
| `ProgramLaws.KeepReads` | lib/allocator.c:152-266 | no other call changes what a load of a byte gives, as long as its block is not given back |
| `ProgramLaws.StoredIsRead` | lib/allocator.c:152-266 | the answer to a load is what was stored last, if the block was not given back in between |
| `ProgramLaws.ClearedIsRead` | lib/allocator.c:260-266 | it is 0 if calloc has cleared the byte and nothing was stored to it since |
| `ProgramLaws.CopiedIsRead` | lib/allocator.c:200-221 | it is what was stored last at the old place, if realloc has moved the block since |
| `ProgramLaws.GlobalIsRead` | lib/allocator.c:89-266 | a global that is not stored to keeps its initial value, initialisation of the allocator included |
| `ProgramLaws.RegionStays` | lib/util.c:4-8 | a region stays registered with its log until another that overlaps it is registered |
| `Allocator.GetLog2` | lib/allocator.c:77-87 | the shift loop computes the number of bits of size - 1 |
| `Allocator.BuddyAllocator.constructor` | lib/allocator.c:89-122 | from any program break, initialisation gives empty lists, an empty heap above the sentinels, USED one-slot marks below it, and changes nothing else in table or memory |
| `Allocator.BuddyAllocator.TableMark` | lib/allocator.c:36-51 | exactly the slots of the block get its byte |
| `Allocator.BuddyAllocator.ListEmpty` | lib/list.h:14-16 | the flag is 1 if and only if the bin is empty |
| `Allocator.BuddyAllocator.ListAppend` | lib/list.h:18-24 | the block becomes the first of its bin in memory; every other bin, every live block and everything outside the heap stays |
| `Allocator.BuddyAllocator.ListRemove` | lib/list.h:26-31 | the block leaves its bin in memory; every other bin, every live block and everything outside the heap stays |
| `Allocator.BuddyAllocator.LowestSetBit` | lib/allocator.c:129-132 | the loop finds the lowest set bit of the heap size |
| `Allocator.BuddyAllocator.GrowOnce` | lib/allocator.c:128-147 | one round of growth on table and memory is one round on the value; heap end and program break agree |
| `Allocator.BuddyAllocator.IncreaseHeap` | lib/allocator.c:124-150 | the growth loop on table and memory is growth on the value, and touches nothing live |
| `Allocator.BuddyAllocator.SplitHalf` | lib/allocator.c:185-193 | one split on table and memory is one split on the value, while the block is still listed in its old bin |
| `Allocator.BuddyAllocator.SplitBlock` | lib/allocator.c:184-193 | the split loop stops at the size class |
| `Allocator.BuddyAllocator.Malloc` | lib/allocator.c:152-198 | malloc on table and memory does to the heap, and returns, what the value-level malloc does, whose choice `HeapOrder.MallocTakesFirst` and `HeapOrder.MallocGrows` fix; live blocks, memory outside the heap and foreign table entries stay |
| `Allocator.BuddyAllocator.MergeOnce` | lib/allocator.c:240-253 | one merge on table and memory is one merge on the value |
| `Allocator.BuddyAllocator.CoalesceBlock` | lib/allocator.c:232-257 | the coalescing loop, driven by the table bytes, is coalescing on the value |
| `Allocator.BuddyAllocator.Free` | lib/allocator.c:223-258 | free on table and memory does to the heap what the value-level free does, and writes to no other live block and not outside the heap; the null pointer changes nothing |
| `Allocator.BuddyAllocator.Realloc` | lib/allocator.c:200-221 | every byte of the old block below the size requested is at the same place in the new block, although the old block is freed and merged; all other live blocks and everything outside the heap keep their bytes |
| `Allocator.BuddyAllocator.Calloc` | lib/allocator.c:260-266 | as many bytes as the product has modulo 2^32 are zero, all of the elements for products up to 2^31, and no live block changes |
| `Allocator.BuddyAllocator.StoreByte` | lib/allocator.c:200-266 | a store of the program to a global or a live block leaves tiling, table and lists as they are |
| `Allocator.BuddyAllocator.Register` | lib/util.c:4-8 | registering a region that the heap does not take for a buddy, below it or on the stack, or one that reaches into a heap without blocks, writes exactly its slots and leaves tiling, table and lists as they are |
| `Allocator.BuddyAllocator.Perform` | lib/allocator.c:152-266 | any sequence of calls, loads, stores and registrations on table and memory gives the answers of the value-level run, to which all laws of `ProgramLaws` apply; the slots outside the heap's area go on showing every registered region |
| `Allocator.ViewsAgree` | lib/allocator.c:36-258 | table, lists and tiling agree: every slot shows its block, and each bin, walked in memory from either end, holds each maximal vacant interval of its size once |
| `Allocator.Session` | lib/allocator.c:89-266 | from initialisation with any globals through any such sequence, the answers are those of the value-level run, and at its end the three views agree |
| `BoundsCheck.LookupInBlock` | lib/baggy_slowpath.c:17-26 | the half-slot test sends a marked pointer back into its own block, and a pointer is marked if and only if it is outside |
| `BoundsCheck.BoundsRecovered` | lib/baggy_slowpath.c:17-32 | every pointer of the window finds its block's log in the table and its start by shifting |
| `BoundsCheck.DecideExact` | lib/baggy_slowpath.c:33-41 | the signed comparisons, wrap-around included, decide membership in the block and in the window |
| `BoundsCheck.SlowPathExact` | lib/baggy_slowpath.c:9-44 | for every pointer of the window and every target word the slow path returns the target, marks it, or aborts, as the target's place demands |
| `BoundsCheck.FastTestInside` | pass/BaggyBounds/BaggyBoundsPointers.cpp:83-102 | for an unmarked pointer the xor-and-shift test passes if and only if the target is in the block |
| `BoundsCheck.FastTestOutside` | pass/BaggyBounds/BaggyBoundsPointers.cpp:83-102 | for a marked pointer the test passes only when nothing moves, as the upper half of the table reads zero (lib/baggy_init.c:61-63) |
| `BoundsCheck.FastRefinesSlow` | pass/BaggyBounds/BaggyBoundsPointers.cpp:83-126 | the check with its fast path gives what the slow path alone would give |
| `BoundsCheck.UnregisteredStep` | lib/baggy_slowpath.c:17-43 | where the table reads zero, a pointer is taken for a block of one byte: it may be marked up to eight bytes away, and beyond that the step is refused |
| `BoundsCheck.StepExact` | pass/BaggyBounds/BaggyBoundsPointers.cpp:94-126 | the verdict of a checked step, for every offset, in terms of the address the machine sees |
| `BoundsCheck.StepRightIff` | lib/baggy_slowpath.c:17-41 | the verdict is right for the true address if and only if the address does not wrap into the window from outside |
| `BoundsCheck.StepRightInside` | lib/baggy_slowpath.c:17-41 | from inside the block the verdict is right for every 32-bit offset |
| `BoundsCheck.WrapAccepted` | lib/baggy_slowpath.c:17-41 | an offset of -2^31 from just behind a block is accepted |
| `BoundsCheck.WalkExact` | lib/baggy_slowpath.c:17-43 | unless a step from within the window wraps into it, a walk aborts if and only if some step leaves the window; otherwise it ends at the start plus the sum, marked if and only if that is outside the block |
| `BoundsCheck.SumsFit` | lib/baggy_slowpath.c:17-43 | no step of a walk wraps into the window when all its sums are addresses below 2^31 |
| `BoundsCheck.OutAndBack` | lib/baggy_slowpath.c:17-43 | going out of the block and coming back gives the original pointer |
| `BoundsCheck.WalkKeepsBlock` | lib/baggy_slowpath.c:9-44 | whatever the offsets, a walk that is not aborted ends in the window of the block it started from |
| `BoundsCheck.HeapBlockIsRegion` | lib/allocator.c:36-51 | every block of the allocator's heap is a region the check can work with, with its USED bit set or not |
| `BoundsCheck.LiveBlocksIsolated` | lib/baggy_slowpath.c:9-44 | no walk from one live block yields an unmarked pointer into another |
| `BoundsCheck.BaggySaveInTable` | lib/util.c:4-8 | exactly the slots of the region get its log |
| `BoundsCheck.RegistrationOk` | lib/util.c:4-8 | registration makes the region recoverable and disturbs no disjoint one |
| `Sizes.GetAlignment` | pass/BaggyBounds/Util.cpp:8-16 | the loop ends, and its result is the allocator's size class for every 32-bit size; it is large enough if and only if the size is at most 2^31 |
| `Sizes.GetLg` | pass/BaggyBounds/Util.cpp:18-26 | the number of bits less one, and the wrapped value for zero |
| `Sizes.RegisteredLog` | pass/BaggyBounds/Util.cpp:11-26 | the log the compiler side registers is the allocator's |
| `Instrument.RewriteBody` | pass/BaggyBounds/BaggyBoundsPointers.cpp:159-188 | every instruction is rewritten once, and what is inserted is not looked at again |
| `Instrument.FindCheck` | pass/BaggyBounds/BaggyBoundsPointers.cpp:192-220 | the scan stops at the first address computation with a nonzero index, or memset |
| `Instrument.Function.Split` | pass/BaggyBounds/BaggyBoundsPointers.cpp:194-237 | the block is replaced by its first part, the check, the slow path and the resumed part, in this order; a memset moves into the check |
| `Instrument.Function.InsertChecks` | pass/BaggyBounds/BaggyBoundsPointers.cpp:190-246 | the traversal over the growing block list ends, and expands every block of the function |
| `Instrument.Function.RunOnFunction` | pass/BaggyBounds/BaggyBoundsPointers.cpp:158-249 | both loops together |
| `Instrument.Expand` | pass/BaggyBounds/BaggyBoundsPointers.cpp:190-246 | one block becomes itself and three more for each address computation and each memset |
| `Instrument.ExpandPreserves` | pass/BaggyBounds/BaggyBoundsPointers.cpp:190-246 | along the resumed path the instructions keep their order with every address computation replaced once by its phi and the memsets gone, and there is exactly one check for each of them, in order |
| `Simulation.MaskTop` | pass/BaggyBounds/BaggyBoundsPointers.cpp:131-141 | the inserted mask clears the mark and nothing else |
| `Simulation.EqualityIff` | pass/BaggyBounds/BaggyBoundsPointers.cpp:173-175 | unmasked equality is equality of addresses, if and only if not one pointer strays to an address the other has in its block |
| `Simulation.EqualityFails` | pass/BaggyBounds/BaggyBoundsPointers.cpp:173-175 | wherever one block follows another, the end of the first and the start of the second are one address and two words |
| `Simulation.EqualitySameBlock` | pass/BaggyBounds/BaggyBoundsPointers.cpp:173-175 | for pointers into one block, equality of the words is equality of the addresses |
| `Simulation.AgreeCast` | pass/BaggyBounds/BaggyBoundsPointers.cpp:163-172 | a pointer cast to an integer of at most 32 bits gives the source's value |
| `Simulation.AgreeOrdered` | pass/BaggyBounds/BaggyBoundsPointers.cpp:173-186 | an ordered pointer comparison gives the source's result |
| `Simulation.AgreeMemory` | lib/baggy_init.c:72-75 | a load or store through a pointer inside its block reaches its address, and one through a stray pointer traps |
| `Simulation.CheckComputes` | pass/BaggyBounds/BaggyBoundsPointers.cpp:76-122 | the inserted instructions compute the target and the fast path's test, and disturb nothing the program uses |
| `Simulation.MemSetComputes` | pass/BaggyBounds/BaggyBoundsPointers.cpp:27-71 | the instructions around a memset let it do what it does by itself and compute the fast path's test on its end |
| `InstrumentedRuns.RunCheck` | pass/BaggyBounds/BaggyBoundsPointers.cpp:94-126 | control goes through check, slow path if needed, and phi, and delivers the checked step's result or stops |
| `InstrumentedRuns.RunMemSet` | pass/BaggyBounds/BaggyBoundsPointers.cpp:27-74 | a memset traps or takes place first; then control goes through its check, to the resumed block or to the refusal |
| `InstrumentedRuns.EnterBlock` | pass/BaggyBounds/BaggyBoundsPointers.cpp:158-249 | at the start of every block of the source, and so at the entry, the two programs match |
| `InstrumentedRuns.SimulateStep` | pass/BaggyBounds/BaggyBoundsPointers.cpp:158-249 | one step of the source program is matched by some steps of the instrumented one |
| `InstrumentedRuns.Simulates` | pass/BaggyBounds/BaggyBoundsPointers.cpp:158-249 | for every number of source steps the instrumented run reaches a matching state, with every pointer marked if and only if it is out of its block |
| `InstrumentedRuns.EndsAlike` | pass/BaggyBounds/BaggyBoundsPointers.cpp:158-249 | however the instrumented run stops, the source run has stopped in the matching way, or has done something undefined |
| `InstrumentedRuns.RefusedIffLeaves` | pass/BaggyBounds/BaggyBoundsPointers.cpp:104-122 | the instrumented run is refused if and only if some step, or some memset, of the source leaves its window |
| `InstrumentedRuns.UntrappedInside` | lib/baggy_init.c:72-75 | wherever a matched run is about to load or store, the machine traps if and only if the pointer is out of its own block, and otherwise reaches its address |
| `InstrumentedRuns.TrapsIffStrayUsed` | lib/baggy_init.c:72-75 | the instrumented run traps if and only if the source run uses a stray pointer |
| `InstrumentedRuns.MemSetWritesFirst` | pass/BaggyBounds/BaggyBoundsPointers.cpp:51-71 | when a memset is refused, all its cells have been written, those behind the block included |
| `InstrumentedRuns.MemSetPassesIff` | pass/BaggyBounds/BaggyBoundsPointers.cpp:40-62 | a memset from inside a block passes if and only if it ends less than half a slot behind the block |
| `ProgramRegions.BlocksAreRegions` | lib/allocator.c:36-51 | the live blocks of the allocator's heap and the registered regions that do not reach into it are regions for all the theorems on instrumented programs |
| `EscapeTracking.PointerMayLeave` | pass/BaggyBounds/EscapeTracking.cpp:84-185 | true if and only if there are more than 20 direct uses, or the value or one it reaches through casts, geps, phis and selects is stored away, is an argument of a call that may write, throw or return something, is returned where that counts, is compared other than fresh memory with null, or is used by any other instruction |
| `EscapeTracking.EscapesIff` | pass/BaggyBounds/EscapeTracking.cpp:108-181 | some use on the worklist's way captures if and only if one of these things happens to a value that is reached |
| `EscapeTracking.MentionIsUse` | pass/BaggyBounds/EscapeTracking.cpp:92-103 | every mention of a value in an instruction, as the callee of a call too, is among the uses that are counted |
| `EscapeTracking.OrderIrrelevant` | pass/BaggyBounds/EscapeTracking.cpp:92-103 | the answer does not depend on the order of the use lists |
| `Runs.LongestConcat` | test/tests/seating.cpp:121 | the longest run of two rows from the three lengths of each |
| `Runs.PlaceMiddle` | test/tests/seating.cpp:79-81 | with no place on the left, a place across the middle is the first one |
| `Seating.InitTree` | test/tests/seating.cpp:23-39 | the new tree stands for a row of free seats |
| `Seating.Node.Propagate` | test/tests/seating.cpp:41-63 | handing the pending status on never changes what the tree stands for |
| `Seating.Node.GetLocation` | test/tests/seating.cpp:65-88 | the first place of that many consecutive free seats, or -1 if and only if there is none, except exactly for a single taken seat and a party of one |
| `Seating.Node.SetRange` | test/tests/seating.cpp:90-122 | exactly the seats of the range change, and every node's lengths are again those of its seats |
| `Seating.ServeRequest` | test/tests/seating.cpp:134-150 | seat by seat: leaving frees exactly the seats from a to b, counted from 1; a party takes exactly the seats from the first place it fits on, or is turned away and nothing changes if there is none, except for the single-seat case |
| `Seating.FollowsOnce` | test/tests/seating.cpp:134-150 | that description leaves one row only |
| `Seating.RefusalsCounted` | test/tests/seating.cpp:124-154 | over any sequence of rows described so, the plain count is the number of parties that find no place |
| `Seating.LoneCounted` | test/tests/seating.cpp:65-88 | and the shortfall is the number of parties of one among them |
| `Seating.Simulate` | test/tests/seating.cpp:124-154 | the number of parties turned away is that of a plain row of seats; below two seats it falls short by exactly the parties of one that met no free seat |
| `Seating.LoneSeatTwice` | test/tests/seating.cpp:65-88 | of two parties of one, a row of one seat turns one away, which the tree does not |
| `QuickSort.MoveSmaller` | test/tests/qsort_indices.cpp:10-20 | the first pass separates smaller elements by permuting |
| `QuickSort.MoveEqual` | test/tests/qsort_indices.cpp:21-31 | the second pass separates equal from larger elements by permuting |
| `QuickSort.Partition` | test/tests/qsort_indices.cpp:8-35 | for every choice of index the middle part is not empty, so the error exit is never taken |
| `QuickSort.Sort` | test/tests/qsort_indices.cpp:4-38 | the part is sorted, a permutation of what it was, and nothing else moves, for every choice of indices |

## Left out

- Allocator.BuddyAllocator.Malloc: `sbrk` failure is not modelled; requests whose growth would pass the address limit are excluded by `BuddyHeap.CanMalloc`.
- Allocator.BuddyAllocator.Realloc: reallocations whose copy would run past the new block are excluded; `HeapTheorems.CopyOverruns` says which these are.
- Allocator.BuddyAllocator.Calloc: products whose low 32 bits exceed 2^31 are excluded, because the zeroing loop would then run past the 16-byte block they get.
- Allocator.BuddyAllocator.Register: regions below the heap that it takes for buddies (`SizeTable.HarmfulRegion`), regions that reach into a heap with blocks, and regions within the heap are excluded.
- Allocator.BuddyAllocator.Free: pointers that are not the start of a live block are excluded; the code does not detect them.
- Simulation.AgreeMemory: an access is one cell at its address; accesses of several bytes that begin inside a block and end behind it are not modelled.
- InstrumentedRuns.Simulates: source programs keep local variables in registers that may be assigned again, so they need no phi of their own; calls, integer-to-pointer casts and allocation during the run, which the pass leaves alone, are not modelled.
- InstrumentedRuns.EndsAlike: nothing is said of a run after the source has done something undefined; this takes in the steps outside the window that wrap into it, which the code accepts (`BoundsCheck.StepRightIff`), and accesses to the size table itself. Every other step outside the window is refused.
- Simulation.MemSetComputes: the length of a memset is a 32-bit word; the conversion of other lengths is not modelled.
- Simulation.AgreeCast: casts to more than 32 bits are left out, because the pass would combine the wide integer with a 32-bit mask.
- EscapeTracking.PointerMayLeave: which values are results of allocation calls, once pointer casts are stripped, is given as a set.
- QuickSort.Sort: the random number is an arbitrary choice.
- Seating.Simulate: reading the requests and printing the count are left out; the requests are a sequence.
- The optimised pass (pass/BaggyBounds/BaggyBoundsPointersOpt.cpp), the loop analysis and the rewriter pass: they rest on other analyses and their size hoisting differs from the check modelled here.
- The layout of globals (pass/BaggyBounds/BaggyBoundsGlobals.cpp) and locals: regions are taken as registered and aligned; a new one replaces those it overlaps.
- lib/baggy_libc.c: wrappers over libc that bound from the slot, not from the block.
- lib/baggy_init.c apart from the two facts that the upper table half reads zero and that addresses above 2^31 trap: mapping, signals and the stack move are input and output of the system.
- Types, metadata and branch weights of the compiler's intermediate code.
- The width of C integers in the benchmark programs: seat numbers and array lengths stay far below it.
