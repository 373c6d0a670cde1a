# Boot firmware core

A model, with proofs, of the stateful cores of an NVIDIA edk2 platform: the Standalone MM kernel in
`Silicon/StandaloneMmPkgLegacy/Core`, and three parts of the boot path before and after it.

| module | what it models |
|---|---|
| `FreePages`, `MemoryMap`, `PageServices`, `PageAllocator` | Page.c: the coalescing free list, the typed memory map with its descriptor stack, the services over both, and the code itself as a class |
| `Pool`, `PoolServices`, `PoolAnswers`, `PoolAllocator` | Pool.c: power-of-two blocks over the page allocator, which others use beside it, what it answers, and the code itself as a class |
| `Depex`, `Scheduling`, `Dispatcher`, `Searches`, `DispatcherServices` | Dependency.c and Dispatcher.c: the postfix evaluator (UEFI PI Specification, Volume 2, section 10.7), the Before and After recursion on any list of drivers, the searches, and the dispatcher itself |
| `ProtocolDatabase`, `ProtocolTable`, `NotifyRecords`, `ProtocolServices` | Handle.c, Locate.c and Notify.c: one relation indexed twice, the table it stands for, and registrations as queues (UEFI Specification, section 7.3) |
| `Mmi`, `MmiLists` | Mmi.c: re-entrant traversal with deferred deletion, and who is registered after it |
| `MemoryAttributes` | MergeMemoryMap of MemoryAttributesTable.c |
| `Rootfs` | L4TRootfsValidation: the A/B retry state machine over many boots |
| `PlatformSpec` | L4TPreIsoInstaller.c: printing, parsing and settling of the platform spec strings |
| `HobResources` | PrePi.c and PrePiMemory.c: splitting of resource HOBs |
| `Machine`, `Sequences`, `Wrappers` | word and page size, and what several modules share |

Each core has the same two layers. Functions on values say what an operation does to a state, and
lemmas prove what the repository promises of it, over all states and all runs. Classes with the
fields of the C globals, and methods with its loops, then compute those functions in place.

## Conventions

- Everything is in whole pages in the page allocator; byte addresses appear only where the code
  computes with them. Page counts are at least 1 and ranges do not wrap, as the code expects.
- A result of `None` or `halted` stands for an ASSERT that stops the machine: a refuel of descriptors
  that runs out of memory, or a pool size that wraps to nothing.
- Lists that the code links through nodes are sequences; arrays the code indexes are arrays.
- What foreign code does is a parameter or a script: driver entry points and MMI handlers may make
  any calls of the services modelled, in any order and nested to any depth.

## Where code and comments part

The model follows the code in each of these.

- Mmi.c:176-195: MmiManage returns for a type nobody handles without lowering the depth. From then on
  no handler is freed (`MissedTypeStopsFreeing`); the claims on freeing are for handled types.
- Mmi.c:160-277: the header says that EFI_SUCCESS means quiesced; for a typed call a later
  EFI_INTERRUPT_PENDING overrides an earlier success (`TraverseStatus`).
- Page.c:294-308: an insertion into a hole merges with the next entry only (`ConvertHoleCoalesced`);
  so a free region added must not touch a Conventional entry below it that has an entry above.
- Page.c:160-188: a stack slot whose entry has been merged away still takes a descriptor off the free list
  when it is popped, and nothing gives that one back (`RunKeepsDescriptors`: two in a refuel at most).
- Page.c:311-427: a range across two entries, or an entry and a hole, falls through all cases and
  corrupts the map (`ConvertStraddling`); so what is released must be part of one allocation.
- Pool.c:116-121: small blocks come from pages of type EfiRuntimeServicesData whatever type is asked
  for, and Pool.c:209 adds the header before any check, so the sum may wrap (`BlockHolds`).
- Locate.c:195-250: with a registration, MmLocateProtocol ignores the GUID it is given.
- Locate.c:131-175: handles are stamped with a counter that wraps; after that a search may leave
  handles out (`LocateIsExact` says which).
- Dispatcher.c:564-618: two drivers with one FILE name GUID can send the recursion on for ever
  (`TangledNeverEnds`; `EndsExactly` says when).
- MemoryAttributesTable.c:51-97: the sum of page counts is not checked (`MergedFlattens`).
- L4TRootfsValidation.c:626-900: a register that has retries for a slot marked unbootable can get that
  slot booted (`UnbootableSelected` says when); a boot never makes such a register from another.
- L4TRootfsValidation.c:744-838: the comment says that the register is cleared for recovery; the
  fields are synced back, and only the magic is gone. The proofs rest on the magic alone.
- PrePiMemory.c:153-171: the split trusts that the region is as long as its resource
  (`MarkTestedMarksOnly`). The second half of its test on the region size can never hold.
- PrePi.c:372: the search asserts that it found a resource; the model returns whether it did.

## Model

| member | source | states |
|---|---|---|
| FreePages.RunInOneNode | Silicon/StandaloneMmPkgLegacy/Core/Page.c:463-494 | In an ordered, coalesced free list no contiguous run of free pages spans two nodes; the completeness of both allocators rests on this. |
| FreePages.AllocOnOneNodeIsHighest | Silicon/StandaloneMmPkgLegacy/Core/Page.c:463-494 | The pages taken from one node lie in it, end at or below the limit, and no higher start in the node would do. |
| FreePages.TakeIsExact | Silicon/StandaloneMmPkgLegacy/Core/Page.c:463-494 | Taking n pages out of a node (removing it, cutting an end, or splitting it in two) makes exactly those pages stop being free, keeps the list sorted, disjoint and coalesced, and lowers the total by n. |
| FreePages.AllocMaxIsHighest | Silicon/StandaloneMmPkgLegacy/Core/Page.c:506-526 | Allocation below a maximum address fails exactly when no run of n free pages ends at or below it, and otherwise returns the greatest base of all such runs in the whole list. |
| FreePages.AllocMaxIsExact | Silicon/StandaloneMmPkgLegacy/Core/Page.c:506-526 | It removes exactly the n pages it returns. |
| FreePages.AllocAtFinds | Silicon/StandaloneMmPkgLegacy/Core/Page.c:539-566 | Allocation at an address succeeds exactly when all n pages are free, and returns that address. |
| FreePages.AllocAtIsExact | Silicon/StandaloneMmPkgLegacy/Core/Page.c:539-566 | It removes exactly those n pages. |
| FreePages.FreeRangeAccepts | Silicon/StandaloneMmPkgLegacy/Core/Page.c:757-817 | A free is accepted exactly when no page of the range is free already. |
| FreePages.FreeRangeIsExact | Silicon/StandaloneMmPkgLegacy/Core/Page.c:723-817 | An accepted free adds exactly its n pages, and the merges with both neighbours restore the coalesced form. |
| FreePages.Canonical | Silicon/StandaloneMmPkgLegacy/Core/Page.c:723-742 | Two well-formed free lists with the same free pages are the same list: the list is determined by what it says. |
| MemoryMap.ConvertIsExact | Silicon/StandaloneMmPkgLegacy/Core/Page.c:257-428 | Converting a range is a pointwise update of the page-to-type function that keeps the map sorted and disjoint if and only if the range lies in one entry or wholly in a hole. |
| MemoryMap.ConvertStraddling | Silicon/StandaloneMmPkgLegacy/Core/Page.c:311-427 | A range that meets an entry without lying in one leaves overlapping entries: the exact failing family. |
| MemoryMap.ConvertInTypeAt | Silicon/StandaloneMmPkgLegacy/Core/Page.c:311-427 | Inside one entry: the pages of the range get the new type, all others keep theirs, through the split and both merges. |
| MemoryMap.ConvertInSorted | Silicon/StandaloneMmPkgLegacy/Core/Page.c:311-427 | Inside one entry: the map stays sorted and disjoint. |
| MemoryMap.ConvertInCoalesced | Silicon/StandaloneMmPkgLegacy/Core/Page.c:311-427 | Inside one entry: a map with no mergeable neighbours of a type stays that way. |
| MemoryMap.ConvertInInside | Silicon/StandaloneMmPkgLegacy/Core/Page.c:311-427 | Inside one entry: any other range that lay inside a single entry of its type still does, even when its own entry was split or absorbed. |
| MemoryMap.ConvertInRange | Silicon/StandaloneMmPkgLegacy/Core/Page.c:311-427 | The converted range ends up inside a single entry of the new type. |
| MemoryMap.ConvertHoleTypeAt | Silicon/StandaloneMmPkgLegacy/Core/Page.c:279-308 | In a hole: the same pointwise update. |
| MemoryMap.ConvertHoleCoalesced | Silicon/StandaloneMmPkgLegacy/Core/Page.c:279-308 | In a hole: the map stays coalesced if and only if the insertion does not touch a predecessor of its type with a further entry above; the code looks at the next entry only. |
| MemoryMap.ConvertHoleOther | Silicon/StandaloneMmPkgLegacy/Core/Page.c:279-308 | In a hole: neighbours of other types are never made mergeable. |
| MemoryMap.ConvertSlots | Silicon/StandaloneMmPkgLegacy/Core/Page.c:203-246 | Every descriptor keeps a place of its own, on the heap or in one stack slot below the depth, whatever the range. |
| MemoryMap.ConvertDepth | Silicon/StandaloneMmPkgLegacy/Core/Page.c:203-246 | One conversion pushes at most two descriptors on the temporary stack. |
| MemoryMap.ConvertDescriptors | Silicon/StandaloneMmPkgLegacy/Core/Page.c:203-246 | Map entries and free descriptors less those pushed stay the same in number when no entry is on the stack, and are at most two fewer otherwise: a merge that absorbs an entry on the stack abandons its slot. |
| PageServices.SyncedListsAreEqual | Silicon/StandaloneMmPkgLegacy/Core/Page.c:586-648 | In a synced state the list of Conventional map entries is the free list: same bases, lengths and order. |
| PageServices.FreeRunInOneEntry | Silicon/StandaloneMmPkgLegacy/Core/Page.c:586-648 | A run of free pages lies in one Conventional entry, so every allocation meets the precondition of the conversion. |
| PageServices.TakenHeld | Silicon/StandaloneMmPkgLegacy/Core/Page.c:586-648 | An allocation adds a block inside one entry of its type and leaves every earlier block inside one of its own. |
| PageServices.ReleaseKeeps | Silicon/StandaloneMmPkgLegacy/Core/Page.c:757-817 | Releasing any part of one live allocation is accepted, keeps list and map in step, cuts that block to what is left of it and leaves the others alone, and conserves pages. |
| PageServices.FreeStackKeeps | Silicon/StandaloneMmPkgLegacy/Core/Page.c:142-190 | Emptying the descriptor stack terminates at depth 0 with all blocks kept and pages conserved, with at most one refuel, and with none when the free descriptors suffice. |
| PageServices.FreeStackMap | Silicon/StandaloneMmPkgLegacy/Core/Page.c:142-190 | It changes the described map by the refuel block only, and no entry is left on the stack. |
| PageServices.AllocRawDrains | Silicon/StandaloneMmPkgLegacy/Core/Page.c:86-134 | What an allocation leaves on the stack can be emptied below MAX_MAP_DEPTH, even if that takes a refuel that pushes more. |
| PageServices.AddPagesKeeps | Silicon/StandaloneMmPkgLegacy/Core/Page.c:874-904 | Adding a region in a hole keeps all of the invariant, in use or free, when a free one is not left beside a Conventional entry it should merge with; ConvertHoleCoalesced says exactly when that is. |
| PageServices.AllocateKeeps | Silicon/StandaloneMmPkgLegacy/Core/Page.c:586-682 | So does allocating pages of any kind, type, count and request, granted or refused. |
| PageServices.StepKeeps | Silicon/StandaloneMmPkgLegacy/Core/Page.c:586-904 | So does every service call. |
| PageServices.RunKeepsWorld | Silicon/StandaloneMmPkgLegacy/Core/Page.c:586-904 | Main theorem, over every run of region adds, allocations of all kinds and frees with the refuels they cause: the Conventional entries of the map are exactly the free list, every live block lies inside a single entry of its own type and meets no other, and free, live and descriptor pages add up to the pages added. |
| PageServices.AllocateAnswers | Silicon/StandaloneMmPkgLegacy/Core/Page.c:586-682 | An allocation of a permitted type succeeds, or halts, exactly when some run of that many free pages suits: any at all, one that ends at or below the limit, or the one at an aligned address. The page is the highest that suits. A refusal has the status for its reason and changes nothing. |
| PageServices.AllocateMap | Silicon/StandaloneMmPkgLegacy/Core/Page.c:586-682 | It gives exactly its pages their type in the map, and a refuel its own. |
| PageServices.ReleaseMap | Silicon/StandaloneMmPkgLegacy/Core/Page.c:757-862 | A release is refused exactly when a page is free already; else exactly its pages become Conventional, but for those of a refuel. |
| PageServices.ReleaseAnswers | Silicon/StandaloneMmPkgLegacy/Core/Page.c:757-862 | By address it is refused also exactly when the address is not that of a page. |
| PageServices.RegionMap | Silicon/StandaloneMmPkgLegacy/Core/Page.c:874-904 | A region gets its type in the map, Conventional or RuntimeData, and no other page changes but those of a refuel. |
| PageServices.RegionIsWhole | Silicon/StandaloneMmPkgLegacy/Core/Page.c:874-904 | The pages of a region are exactly those that lie wholly in it. |
| PageServices.RunKeepsDescriptors | Silicon/StandaloneMmPkgLegacy/Core/Page.c:86-190 | Over every run no map entry is left on the stack, and map entries and free descriptors add up to what the refuels gave, but for at most two lost in each. |
| PageAllocator.Allocator.ConvertMmMemoryMapEntry | Silicon/StandaloneMmPkgLegacy/Core/Page.c:257-428 | The loops over the map, with the splits and both merges in place, compute the conversion above. |
| PageAllocator.Allocator.InternalAllocPagesOnOneNode | Silicon/StandaloneMmPkgLegacy/Core/Page.c:463-494 | Takes the highest fitting pages of one node. |
| PageAllocator.Allocator.InternalAllocMaxAddress | Silicon/StandaloneMmPkgLegacy/Core/Page.c:506-526 | The search from the highest node down; says None exactly when the specification does. |
| PageAllocator.Allocator.InternalAllocAddress | Silicon/StandaloneMmPkgLegacy/Core/Page.c:539-566 | The search for the node that holds the address. |
| PageAllocator.Allocator.InternalMergeNodes | Silicon/StandaloneMmPkgLegacy/Core/Page.c:723-742 | Joins two nodes that touch. |
| PageAllocator.Allocator.ReturnPages | Silicon/StandaloneMmPkgLegacy/Core/Page.c:757-817 | The insertion point loop and both merges; refuses an overlap. |
| PageAllocator.Allocator.AllocateMemoryMapEntry | Silicon/StandaloneMmPkgLegacy/Core/Page.c:86-134 | Takes a heap descriptor, refuelling by a recursive allocation when there is none. |
| PageAllocator.Allocator.CoreFreeMemoryMapStack | Silicon/StandaloneMmPkgLegacy/Core/Page.c:142-190 | The loop that moves descriptors from mMapStack to the heap, with a refuel in the middle; terminates with the stack empty. |
| PageAllocator.Allocator.PopSlot | Silicon/StandaloneMmPkgLegacy/Core/Page.c:155-188 | One round of that loop; finds the map entry that uses the top slot, if any. |
| PageAllocator.Allocator.MmInternalAllocatePages | Silicon/StandaloneMmPkgLegacy/Core/Page.c:586-682 | The allocation service: status, page and whole new state. |
| PageAllocator.Allocator.MmInternalFreePagesEx | Silicon/StandaloneMmPkgLegacy/Core/Page.c:757-817 | The free service, with its refusals. |
| PageAllocator.Allocator.MmAddMemoryRegion | Silicon/StandaloneMmPkgLegacy/Core/Page.c:874-904 | The region service, with the alignment of base and length. |
| Pool.AllocKeeps | Silicon/StandaloneMmPkgLegacy/Core/Pool.c:103-148 | Allocating a block of any class, with all the halving that takes, keeps every carved page tiled exactly by free and live blocks, each free block of list i of size 64 times 2^i, aligned to it and marked available, each live one marked not. |
| Pool.HalveKeeps | Silicon/StandaloneMmPkgLegacy/Core/Pool.c:130-140 | One step of the recursive split keeps that. |
| Pool.CarveKeeps | Silicon/StandaloneMmPkgLegacy/Core/Pool.c:115-128 | So does carving a new page. |
| Pool.FreeKeeps | Silicon/StandaloneMmPkgLegacy/Core/Pool.c:158-174 | Freeing a live block: its header leads to the list of its own class, and the tiling stays. |
| Pool.BlocksApart | Silicon/StandaloneMmPkgLegacy/Core/Pool.c:103-174 | No two live blocks, and no live and free block, share a unit of memory. |
| Pool.PoolIndexIsSmallest | Silicon/StandaloneMmPkgLegacy/Core/Pool.c:221-227 | The class computed with HighBitSet32 is the smallest that holds the bytes. |
| PoolServices.AllocatePoolKeeps | Silicon/StandaloneMmPkgLegacy/Core/Pool.c:190-236 | Allocating any size and type keeps pool and page allocator in order together: carved pages are owned by the pool, runs of whole pages by their buffers. |
| PoolServices.BlockHolds | Silicon/StandaloneMmPkgLegacy/Core/Pool.c:190-236 | A small buffer holds the request and its header if and only if their sum does not wrap, and is then of the smallest class that does. |
| PoolServices.PagesHold | Silicon/StandaloneMmPkgLegacy/Core/Pool.c:204-219 | A large buffer holds request and header with less than a page to spare. |
| PoolServices.FreeBlockKeeps | Silicon/StandaloneMmPkgLegacy/Core/Pool.c:276-299 | Freeing a small buffer keeps all that. |
| PoolServices.FreeLargeKeeps | Silicon/StandaloneMmPkgLegacy/Core/Pool.c:276-299 | Freeing a large buffer is always accepted by the page allocator and keeps all that. |
| PoolServices.BuffersApart | Silicon/StandaloneMmPkgLegacy/Core/Pool.c:190-299 | In every state in order, no two buffers in use, small or large, share memory. |
| PoolServices.HeaderTells | Silicon/StandaloneMmPkgLegacy/Core/Pool.c:276-299 | The header alone tells a large buffer from a small one, and how many pages to give back. |
| PoolServices.TakePagesFresh | Silicon/StandaloneMmPkgLegacy/Core/Pool.c:115-128 | Pages from the page allocator meet nothing handed out before. |
| PoolServices.UsePagesKeeps | Silicon/StandaloneMmPkgLegacy/Core/Pool.c:103-299 | A page call made by somebody else between pool calls, an allocation, a region or a release that meets neither a carved page nor a large buffer, keeps pool and pages in order together. |
| PoolServices.HeapStepKeeps | Silicon/StandaloneMmPkgLegacy/Core/Pool.c:103-299 | So does every call, of the pool or of the page services. |
| PoolServices.RunKeepsHeap | Silicon/StandaloneMmPkgLegacy/Core/Pool.c:103-299 | Main theorem, over every run from the start of pool allocations, pool frees and page calls of others: the pool stays tiled, its pages stay its own and the large buffers stay theirs, in step with map and free list. |
| PoolServices.RunBuffersApart | Silicon/StandaloneMmPkgLegacy/Core/Pool.c:103-299 | So at no time in any such run do two buffers in use, small or large, share memory. |
| PoolAllocator.Allocator.InternalAllocPoolByIndex | Silicon/StandaloneMmPkgLegacy/Core/Pool.c:103-148 | The recursive split over free lists and headers in place. |
| PoolAllocator.Allocator.MmInternalAllocatePool | Silicon/StandaloneMmPkgLegacy/Core/Pool.c:190-236 | The allocation service over both allocators: status, place and whole new state. |
| PoolAllocator.Allocator.InternalFreePoolByIndex | Silicon/StandaloneMmPkgLegacy/Core/Pool.c:158-174 | Puts a block on the list its header leads to. |
| PoolAllocator.Allocator.MmInternalFreePool | Silicon/StandaloneMmPkgLegacy/Core/Pool.c:276-299 | The free service, with the refusal of NULL. |
| PoolAllocator.Allocator.MmAllocatePages | Silicon/StandaloneMmPkgLegacy/Core/Page.c:668-713 | A page allocation by anybody else while the pool is in use: status, page and whole new state, with all of the pool still in order. |
| PoolAllocator.Allocator.MmFreePages | Silicon/StandaloneMmPkgLegacy/Core/Page.c:832-862 | A page release by anybody else, refusals included: the same. |
| PoolAnswers.AllocateSmallAnswers | Silicon/StandaloneMmPkgLegacy/Core/Pool.c:103-236 | A small buffer is granted, or halts, exactly when there is a free block of its size or larger, which it then comes from, or a free page; it is one block more in use. A refusal changes nothing. |
| PoolAnswers.AllocateLargeAnswers | Silicon/StandaloneMmPkgLegacy/Core/Pool.c:190-236 | A larger one exactly when there are pages enough in a row; it is of the type asked for. |
| PoolAnswers.AllocateRefuses | Silicon/StandaloneMmPkgLegacy/Core/Pool.c:190-236 | Any other type is refused, and a size that wraps to nothing with its header stops the machine. |
| PoolAnswers.FreeBlockAnswers | Silicon/StandaloneMmPkgLegacy/Core/Pool.c:158-174 | A small buffer freed is the first of the list of its class, and nothing else changes. |
| PoolAnswers.FreeLargeAnswers | Silicon/StandaloneMmPkgLegacy/Core/Pool.c:276-299 | The pages of a large buffer freed are free again, but for those a refuel takes, and the pool is as it was. |
| Depex.ProgramGivesTruth | Silicon/StandaloneMmPkgLegacy/Core/Dependency.c:199-355 | For every Boolean expression over GUIDs, evaluating its postfix encoding followed by END says TRUE exactly when the expression is true of the installed protocols and its height fits the stack limit. |
| Depex.RunIsExact | Silicon/StandaloneMmPkgLegacy/Core/Dependency.c:199-355 | Over all byte strings: the loop says TRUE if and only if the bytes begin with a list of well-formed postfix expressions closed by END that fit the stack, and the last is true; every truncated, unknown or underflowing program says FALSE. |
| Depex.RunEncode | Silicon/StandaloneMmPkgLegacy/Core/Dependency.c:199-355 | Evaluating an encoded expression at any place on any stack pushes its truth value and goes on behind it, or overflows exactly when its height exceeds the room. |
| Depex.Evaluator.GrowDepexStack | Silicon/StandaloneMmPkgLegacy/Core/Dependency.c:35-77 | Growing reallocates the array, keeps the contents and the pointer, and fails exactly at the limit. |
| Depex.Evaluator.PushBool | Silicon/StandaloneMmPkgLegacy/Core/Dependency.c:88-115 | Pushes, growing the array when it is full; fails exactly at full capacity. |
| Depex.Evaluator.PopBool | Silicon/StandaloneMmPkgLegacy/Core/Dependency.c:126-144 | Undoes a push; fails exactly on the empty stack. |
| Depex.Evaluator.MmIsSchedulable | Silicon/StandaloneMmPkgLegacy/Core/Dependency.c:158-359 | The loop over the array-backed stack computes that result, however often the stack grows, and terminates. |
| Scheduling.EndsExactly | Silicon/StandaloneMmPkgLegacy/Core/Dispatcher.c:564-618 | For any list, names repeated or not: scheduling a waiting driver ends if and only if waiting drivers that name each other, Before or After, do not lead from it to a cycle of waiting Before drivers. |
| Scheduling.EndsUntangled | Silicon/StandaloneMmPkgLegacy/Core/Dispatcher.c:564-618 | A recursion that ends, however deep, meets no such cycle. |
| Scheduling.TangledNeverEnds | Silicon/StandaloneMmPkgLegacy/Core/Dispatcher.c:564-618 | A list of three drivers, two of them with one name, on which it never ends. |
| Dispatcher.ChainUnique | Silicon/StandaloneMmPkgLegacy/Core/Dispatcher.c:564-618 | With distinct names the chain of Before and After targets that leads to a driver is unique. |
| Dispatcher.ChainShort | Silicon/StandaloneMmPkgLegacy/Core/Dispatcher.c:564-618 | It repeats no driver, so its length bounds the recursion: the reason the mutual recursion ends although the root is still Dependent in the Before loop. |
| Dispatcher.OrderIsExact | Silicon/StandaloneMmPkgLegacy/Core/Dispatcher.c:564-618 | Scheduling a driver appends exactly the waiting drivers whose chain of targets reaches it through waiting drivers. |
| Dispatcher.OrderNoDup | Silicon/StandaloneMmPkgLegacy/Core/Dispatcher.c:564-618 | Each of them once. |
| Dispatcher.OrderPlaces | Silicon/StandaloneMmPkgLegacy/Core/Dispatcher.c:564-618 | A Before driver comes ahead of its target and an After driver behind it, at every level. |
| Dispatcher.ChildrenSegment | Silicon/StandaloneMmPkgLegacy/Core/Dispatcher.c:564-618 | The subtrees come whole, in the order of discovery. |
| Dispatcher.SubtreesApart | Silicon/StandaloneMmPkgLegacy/Core/Dispatcher.c:564-618 | Different children share nothing. |
| Dispatcher.LoopGuard | Silicon/StandaloneMmPkgLegacy/Core/Dispatcher.c:580-616 | The test in the two loops, made on flags that change as the recursion goes, picks exactly the children known when the driver came to be scheduled. |
| Dispatcher.OrderFrame | Silicon/StandaloneMmPkgLegacy/Core/Dispatcher.c:564-618 | What is appended depends only on the flags of the drivers below. |
| Dispatcher.InsertIsOrder | Silicon/StandaloneMmPkgLegacy/Core/Dispatcher.c:564-618 | With distinct names the recursion as it is written, for any list, gives that order, in no more nested calls than there are drivers off the chain. |
| Dispatcher.DistinctIsUntangled | Silicon/StandaloneMmPkgLegacy/Core/Dispatcher.c:564-618 | With distinct names no driver that starts a scheduling is entangled. |
| Dispatcher.ScheduleKeeps | Silicon/StandaloneMmPkgLegacy/Core/Dispatcher.c:564-618 | Scheduling keeps flags, queue and list of started drivers consistent. |
| Dispatcher.ScheduleProgress | Silicon/StandaloneMmPkgLegacy/Core/Dispatcher.c:504-527 | It leaves fewer drivers waiting, so the dispatcher ends. |
| Dispatcher.ScheduleWarranted | Silicon/StandaloneMmPkgLegacy/Core/Dispatcher.c:504-527 | Every driver scheduled was found ready, or its chain leads to one that was. |
| Dispatcher.ReadyIs | Silicon/StandaloneMmPkgLegacy/Core/Dependency.c:158-355 | A driver is ready exactly when it is neither Before nor After and its expression is a list of well-formed postfix expressions that fit the stack, the last one true of what is installed. |
| Dispatcher.MmPreProcessDepex | Silicon/StandaloneMmPkgLegacy/Core/Dispatcher.c:293-314 | A driver is Before, or After, exactly when the first byte of its expression says so, hence never both; its target is the GUID behind it. |
| Searches.BatchIsExact | Silicon/StandaloneMmPkgLegacy/Core/Dispatcher.c:504-527 | One search schedules exactly the drivers that waiting drivers lead to, by Before and After, from a waiting one that is ready. |
| Searches.BatchStep | Silicon/StandaloneMmPkgLegacy/Core/Dispatcher.c:504-527 | Whether a driver is ready, and what comes with it, does not depend on what the search has scheduled before it. |
| Searches.BatchPlaces | Silicon/StandaloneMmPkgLegacy/Core/Dispatcher.c:504-527 | In what one search queues, a Before driver comes ahead of its target and an After driver behind it. |
| DispatcherServices.DriverDispatcher.MmAddToDriverList | Silicon/StandaloneMmPkgLegacy/Core/Dispatcher.c:698-733 | A new driver waits behind the others, whatever its name, and a dispatch is requested; the invariant of the dispatcher holds on when the name is new. |
| DispatcherServices.DriverDispatcher.MmInsertOnScheduledQueueWhileProcessingBeforeAndAfter | Silicon/StandaloneMmPkgLegacy/Core/Dispatcher.c:564-618 | On any list on which it ends, the recursion with its two loops appends what the specification says to the queue, clearing and setting exactly those flags. |
| DispatcherServices.DriverDispatcher.IsSchedulable | Silicon/StandaloneMmPkgLegacy/Core/Dependency.c:158-195 | A driver without an expression, or with Before or After, is never ready by itself; else the evaluation loop decides. |
| DispatcherServices.DriverDispatcher.DrainQueue | Silicon/StandaloneMmPkgLegacy/Core/Dispatcher.c:415-503 | Works through the queue in order and ends, with a restart, exactly behind the first entry point that registers the MM entry point when the platform asks for that; what is loaded, started and marked Initialized is exactly that. |
| DispatcherServices.DriverDispatcher.DispatchFirst | Silicon/StandaloneMmPkgLegacy/Core/Dispatcher.c:415-480 | Loads the first driver queued, marks it Initialized, and calls its entry point exactly when the load succeeded; no driver is loaded or started twice. |
| DispatcherServices.DriverDispatcher.SearchDrivers | Silicon/StandaloneMmPkgLegacy/Core/Dispatcher.c:504-527 | Queues exactly that batch, and says whether it is empty; if it is, the lists are at a fixpoint. |
| DispatcherServices.DriverDispatcher.MmDispatcher | Silicon/StandaloneMmPkgLegacy/Core/Dispatcher.c:387-550 | One run terminates. Over all runs a driver is Initialized exactly when it has been loaded, once, and started, once, exactly when the load succeeded. A restart ends a run exactly behind the entry point that asks for it. On EFI_SUCCESS each driver is waiting or done, no waiting one can be scheduled with what is then installed, and another dispatch is requested exactly when one waits; the refusals change nothing. |
| ProtocolDatabase.RunKeeps | Silicon/StandaloneMmPkgLegacy/Core/Handle.c:209-428 | Over every run of installs, uninstalls, registrations, unregistrations, lookups and the searches by GUID or over handles with their stamps: an interface is on its handle's list exactly when it is on its GUID's list, a handle is listed exactly when it has an interface, at most one per handle and GUID, and every cursor is on a live element of its own list. |
| ProtocolDatabase.StepKeeps | Silicon/StandaloneMmPkgLegacy/Core/Handle.c:209-428 | Each call keeps that. |
| ProtocolDatabase.InstallKeeps | Silicon/StandaloneMmPkgLegacy/Core/Handle.c:209-347 | Installing does, refusals included. |
| ProtocolDatabase.UninstallKeeps | Silicon/StandaloneMmPkgLegacy/Core/Handle.c:364-428 | Uninstalling does, with the handle freed when its last interface goes. |
| ProtocolDatabase.RegisterKeeps | Silicon/StandaloneMmPkgLegacy/Core/Notify.c:97-199 | Registering does, a repeated one included. |
| ProtocolDatabase.UnregisterKeeps | Silicon/StandaloneMmPkgLegacy/Core/Notify.c:112-141 | Unregistering does. |
| ProtocolDatabase.AfterRemove | Silicon/StandaloneMmPkgLegacy/Core/Notify.c:45-78 | Setting back a cursor that is on the element removed skips nothing and repeats nothing. |
| ProtocolDatabase.PendingInstall | Silicon/StandaloneMmPkgLegacy/Core/Handle.c:296-340 | An install puts the interface at the end of every queue of its GUID and of no other. |
| ProtocolDatabase.PendingRemove | Silicon/StandaloneMmPkgLegacy/Core/Notify.c:45-78 | An uninstall takes it out of every queue it is still in, in place, and changes no other. |
| ProtocolDatabase.PendingRegister | Silicon/StandaloneMmPkgLegacy/Core/Notify.c:143-199 | A registration is noticed by no other queue. |
| ProtocolDatabase.PendingUnregister | Silicon/StandaloneMmPkgLegacy/Core/Notify.c:112-141 | Nor is an unregistration. |
| ProtocolDatabase.PendingRegistered | Silicon/StandaloneMmPkgLegacy/Core/Notify.c:171-185 | A new registration starts with nothing pending, whatever is installed. |
| ProtocolDatabase.PendingAdvance | Silicon/StandaloneMmPkgLegacy/Core/Locate.c:84-117 | A lookup takes the oldest pending interface, and touches no other queue. |
| ProtocolDatabase.RegistrationIsQueue | Silicon/StandaloneMmPkgLegacy/Core/Notify.c:97-199 | Main theorem, over any interleaving with all those calls: successive lookups return the interfaces installed after the registration in order of installation, each at most once; every one of them still installed has been returned or is pending, not both. |
| ProtocolDatabase.LocateIsExact | Silicon/StandaloneMmPkgLegacy/Core/Locate.c:131-175 | A search by protocol returns each handle once, exactly those on which MmHandleProtocol succeeds and that do not bear the number of this search. |
| ProtocolDatabase.LocateInOrder | Silicon/StandaloneMmPkgLegacy/Core/Locate.c:131-175 | With a number no handle bears none is left out, and they come in order of installation. |
| ProtocolDatabase.StampsKeep | Silicon/StandaloneMmPkgLegacy/Core/Locate.c:131-175 | The stamps a search leaves on handles break no invariant. |
| ProtocolDatabase.VisitIsSearch | Silicon/StandaloneMmPkgLegacy/Core/Locate.c:131-175 | A search by protocol leaves its number on exactly the handles it returns. |
| ProtocolDatabase.StampsAreSearch | Silicon/StandaloneMmPkgLegacy/Core/Locate.c:272-410 | Whatever changes stamps only, as every search does, is a search call of those runs. |
| ProtocolTable.PresentIs | Silicon/StandaloneMmPkgLegacy/Core/Handle.c:440-470 | What a handle has for a GUID is the one interface on its list with that GUID, and the one on the list of the GUID with that handle. |
| ProtocolTable.HandleHas | Silicon/StandaloneMmPkgLegacy/Core/Handle.c:209-428 | A handle is valid exactly when it has something. |
| ProtocolTable.InstallAnswers | Silicon/StandaloneMmPkgLegacy/Core/Handle.c:209-347 | An install is granted exactly for a new handle or a valid one that has nothing for the GUID; the interface is new, for that handle and GUID. |
| ProtocolTable.InstallTable | Silicon/StandaloneMmPkgLegacy/Core/Handle.c:209-347 | Then the handle has it for the GUID, and no other handle or GUID changes. |
| ProtocolTable.UninstallAnswers | Silicon/StandaloneMmPkgLegacy/Core/Handle.c:364-428 | An uninstall is granted exactly when the handle has that interface for the GUID; the status otherwise. |
| ProtocolTable.UninstallTable | Silicon/StandaloneMmPkgLegacy/Core/Handle.c:364-428 | Then the handle has nothing for the GUID, and no other handle or GUID changes. |
| ProtocolTable.InstalledUntil | Silicon/StandaloneMmPkgLegacy/Core/Handle.c:209-536 | Over any run of calls from an install on, the handle has that interface for the GUID, which is what MmHandleProtocol answers, exactly as long as it has not been uninstalled. |
| NotifyRecords.RegisterIs | Silicon/StandaloneMmPkgLegacy/Core/Notify.c:97-199 | A function registered for a GUID already gets its record back and changes nothing; else there is a new record behind the others. |
| NotifyRecords.UnregisterIs | Silicon/StandaloneMmPkgLegacy/Core/Notify.c:112-141 | Unregistering takes away exactly that record, or is EFI_NOT_FOUND when the GUID has none such. |
| NotifyRecords.RunInOrder | Silicon/StandaloneMmPkgLegacy/Core/Notify.c:97-199 | Over every run no function has two records for a GUID, the records of a GUID are in the order of registration and the handles in the order they were made. |
| ProtocolServices.NotificationsExact | Silicon/StandaloneMmPkgLegacy/Core/Notify.c:18-32 | One notification for each record of the GUID, in the order of registration, with the right interface and handle. |
| ProtocolServices.EverythingIs | Silicon/StandaloneMmPkgLegacy/Core/Locate.c:272-410 | What a search is to find: each handle once; all valid ones, or those that have the protocol, oldest interface first, or that of the next interface of the registration. |
| ProtocolServices.Services.MmFindProtocolEntry | Silicon/StandaloneMmPkgLegacy/Core/Handle.c:57-108 | Finds the entry of a GUID, or makes one at the end. |
| ProtocolServices.Services.MmFindProtocolInterface | Silicon/StandaloneMmPkgLegacy/Core/Handle.c:123-157 | Finds the interface on the handle's list. |
| ProtocolServices.Services.MmGetProtocolInterface | Silicon/StandaloneMmPkgLegacy/Core/Handle.c:440-470 | The interface of a handle for a GUID. |
| ProtocolServices.Services.MmHandleProtocol | Silicon/StandaloneMmPkgLegacy/Core/Handle.c:489-536 | Its three answers, each exactly when. |
| ProtocolServices.Services.MmInstallProtocolInterfaceNotify | Silicon/StandaloneMmPkgLegacy/Core/Handle.c:209-347 | Whole new state, status and handle of the install, and the notifications sent; an interface type other than native is refused. |
| ProtocolServices.Services.MmUninstallProtocolInterface | Silicon/StandaloneMmPkgLegacy/Core/Handle.c:364-428 | Whole new state and status of the uninstall. |
| ProtocolServices.Services.MmNotifyProtocol | Silicon/StandaloneMmPkgLegacy/Core/Notify.c:18-32 | The loop over the records. |
| ProtocolServices.Services.MmRemoveInterfaceFromProtocol | Silicon/StandaloneMmPkgLegacy/Core/Notify.c:45-78 | Takes the interface off its list after setting back every cursor on it. |
| ProtocolServices.Services.MmRegisterProtocolNotify | Silicon/StandaloneMmPkgLegacy/Core/Notify.c:97-199 | A new record, or the one there is. |
| ProtocolServices.Services.MmUnregisterProtocolNotify | Silicon/StandaloneMmPkgLegacy/Core/Notify.c:112-141 | The record goes, or EFI_NOT_FOUND. |
| ProtocolServices.Services.MmGetNextLocateByProtocol | Silicon/StandaloneMmPkgLegacy/Core/Locate.c:131-175 | The next interface whose handle has no stamp of this search. |
| ProtocolServices.Services.MmGetNextLocateByRegisterNotify | Silicon/StandaloneMmPkgLegacy/Core/Locate.c:84-117 | The next interface behind the cursor. |
| ProtocolServices.Services.MmLocateProtocol | Silicon/StandaloneMmPkgLegacy/Core/Locate.c:195-250 | The oldest interface of the GUID, or the next of the registration, which moves on. |
| ProtocolServices.Services.MmLocateHandle | Silicon/StandaloneMmPkgLegacy/Core/Locate.c:272-410 | For all three kinds of search, and refused for any other: what fits is in the buffer, the size is that of all matches, and a registration moves on only on success. |
| ProtocolServices.Services.MmLocateHandleBuffer | Silicon/StandaloneMmPkgLegacy/Core/Locate.c:436-498 | The buffer holds exactly all matches as long as the request counter has not wrapped. |
| Mmi.OutermostFrees | Silicon/StandaloneMmPkgLegacy/Core/Mmi.c:160-341 | When the outermost call for a handled type returns, nothing has been freed before; then, if every type managed on the way was handled, exactly the marked handlers go; if not, none does and the depth stays above zero by the number of the others. |
| Mmi.RunCallsGrow | Silicon/StandaloneMmPkgLegacy/Core/Mmi.c:160-341 | While any traversal is active, whatever nested calls, registrations and unregistrations do, no handler and no entry is freed and no order changes. |
| Mmi.ManageGrows | Silicon/StandaloneMmPkgLegacy/Core/Mmi.c:160-341 | In particular a nested MmiManage. |
| Mmi.EntryStays | Silicon/StandaloneMmPkgLegacy/Core/Mmi.c:176-226 | So the list under traversal stays the list of its type, and only grows at the end. |
| Mmi.MissedTypeStopsFreeing | Silicon/StandaloneMmPkgLegacy/Core/Mmi.c:176-196 | A call for a type nobody handles leaves the depth raised: from then on no handler is ever freed, whatever is called. |
| Mmi.KeepMembers | Silicon/StandaloneMmPkgLegacy/Core/Mmi.c:286-340 | Exactly the marked handlers are dropped. |
| Mmi.KeepEntriesMembers | Silicon/StandaloneMmPkgLegacy/Core/Mmi.c:59-80 | An entry stays exactly when it keeps a handler, so none is left empty. |
| Mmi.ManageOk | Silicon/StandaloneMmPkgLegacy/Core/Mmi.c:160-341 | Every call keeps handles unique, entries unique by type and non-empty, and marks only while something is active. |
| Mmi.RunKeeps | Silicon/StandaloneMmPkgLegacy/Core/Mmi.c:160-446 | Over every run from the start that invariant holds, and the depth is the number of calls on types nobody handled. |
| Mmi.TraverseStatus | Silicon/StandaloneMmPkgLegacy/Core/Mmi.c:201-277 | The whole status in terms of the answers of all handlers invoked: a typed call is pending when the last says so; else it succeeds once any served it; else it is what the last pending one said, or what it was before. |
| Mmi.ManageStatus | Silicon/StandaloneMmPkgLegacy/Core/Mmi.c:160-341 | So EFI_NOT_FOUND is answered exactly for an unknown type or when no handler invoked answered with anything the call takes notice of. |
| Mmi.MmiServices.MmCoreFindMmiEntry | Silicon/StandaloneMmPkgLegacy/Core/Mmi.c:93-142 | Finds the entry of a type; without one, makes it at the end or answers none, as asked. |
| Mmi.MmiServices.MmiHandlerRegister | Silicon/StandaloneMmPkgLegacy/Core/Mmi.c:356-403 | Adds a handler at the end of its list. |
| Mmi.MmiServices.MmiHandlerUnRegister | Silicon/StandaloneMmPkgLegacy/Core/Mmi.c:416-446 | Marks the handler, and frees it at once only when nothing is active. |
| Mmi.MmiServices.RemoveMmiHandler | Silicon/StandaloneMmPkgLegacy/Core/Mmi.c:59-80 | Frees a handler, and its entry with the last one. |
| Mmi.MmiServices.MmiManage | Silicon/StandaloneMmPkgLegacy/Core/Mmi.c:160-341 | The re-entrant call: whole new state and status, for any script of what handlers do. |
| Mmi.MmiServices.InvokeAll | Silicon/StandaloneMmPkgLegacy/Core/Mmi.c:201-277 | The traversal loop, over a list that grows under it. |
| Mmi.MmiServices.FreeMarked | Silicon/StandaloneMmPkgLegacy/Core/Mmi.c:286-340 | The sweep over all lists, which deletes entries as it goes. |
| MmiLists.AddLists | Silicon/StandaloneMmPkgLegacy/Core/Mmi.c:356-403 | A new handler is the last on the list of its type, and no other list changes. |
| MmiLists.DropLists | Silicon/StandaloneMmPkgLegacy/Core/Mmi.c:416-446 | Unregistering a handler that is registered marks it, while anything is active, or else takes it off its list, and changes no other; an unknown one is refused. |
| MmiLists.SweepLists | Silicon/StandaloneMmPkgLegacy/Core/Mmi.c:286-340 | The sweep takes exactly the marked handlers off each list and keeps the order of the others. |
| MmiLists.CallsFollow | Silicon/StandaloneMmPkgLegacy/Core/Mmi.c:160-446 | While a traversal is active, whatever is called and however nested: nobody goes, those who register are on, and exactly those unregistered become marked. |
| MmiLists.OutermostKeeps | Silicon/StandaloneMmPkgLegacy/Core/Mmi.c:160-341 | After an outermost call a handler is registered exactly when it was before or came during the call, and was not unregistered during it; if some type was not handled, those unregistered stay and are marked. |
| MmiLists.RunIsExact | Silicon/StandaloneMmPkgLegacy/Core/Mmi.c:160-446 | Over any calls from outside in which every type managed is handled, a handler is registered exactly from its registration to its unregistration. |
| MmiLists.InvokedAll | Silicon/StandaloneMmPkgLegacy/Core/Mmi.c:201-277 | A traversal invokes every handler of its list in order, once, those that join while it goes included, and stops early only behind an answer that ends it. |
| MemoryAttributes.MergedFlattens | Silicon/StandaloneMmPkgLegacy/Core/MemoryAttributesTable.c:51-97 | The merged map says the same of every page in the same order if and only if no sum of page counts overflows 64 bits; else pages are lost. |
| MemoryAttributes.MergedIsCompact | Silicon/StandaloneMmPkgLegacy/Core/MemoryAttributesTable.c:51-97 | No two neighbours of the result have the same type and attributes with the second starting where the first ends, modulo 64 bits. |
| MemoryAttributes.MergedStandsFor | Silicon/StandaloneMmPkgLegacy/Core/MemoryAttributesTable.c:51-97 | The map falls into stretches, each of one type and with the same attributes and without a gap, and each descriptor of the result is the first of one, in order, with the pages of all. |
| MemoryAttributes.MergedTwice | Silicon/StandaloneMmPkgLegacy/Core/MemoryAttributesTable.c:51-97 | Merging twice is merging once. |
| MemoryAttributes.MergeMemoryMap | Silicon/StandaloneMmPkgLegacy/Core/MemoryAttributesTable.c:51-97 | The nested loops, reading and writing one array, compute it and leave the rest of the array alone. |
| Rootfs.SlotSetGets | Silicon/NVIDIA/Application/L4TLauncher/L4TRootfsValidation.h:35-37 | Setting the slot is read back modulo 4 and touches no other field. |
| Rootfs.CountASetGets | Silicon/NVIDIA/Application/L4TLauncher/L4TRootfsValidation.h:43-45 | The same of the retry count of slot A. |
| Rootfs.CountBSetGets | Silicon/NVIDIA/Application/L4TLauncher/L4TRootfsValidation.h:39-41 | The same of the retry count of slot B. |
| Rootfs.MagicSetGets | Silicon/NVIDIA/Application/L4TLauncher/L4TRootfsValidation.h:32-33 | Setting the magic touches no other field. |
| Rootfs.RegisterLayout | Silicon/NVIDIA/Application/L4TLauncher/L4TRootfsValidation.h:13-30 | The magic is in bits 0 to 15, the slot in 16 and 17, the count of slot B in 18 and 19 and that of slot A in 20 and 21. |
| Rootfs.BootChooses | Silicon/NVIDIA/Application/L4TLauncher/L4TRootfsValidation.c:626-900 | Which slot is booted, from any store: the chain's own while it has retries, else the other by a reset while that has, else recovery; slot A only without redundancy; the chain's own at an unknown level. |
| Rootfs.BootWrites | Silicon/NVIDIA/Application/L4TLauncher/L4TRootfsValidation.c:626-900 | What is written: one retry less and the slot for a boot; for a switch the mark, the chain for the firmware and a cleared register; for recovery the marks, and the magic taken away. |
| Rootfs.BootSpends | Silicon/NVIDIA/Application/L4TLauncher/L4TRootfsValidation.c:626-900 | With either redundancy level and any register: one boot takes one off an explicit budget or, exactly when that is spent, chooses recovery. If moreover no unbootable slot has retries left in the register, that stays so, and no slot is booted or switched to whose status is unbootable. |
| Rootfs.RecoveryFromThenOn | Silicon/NVIDIA/Application/L4TLauncher/L4TRootfsValidation.c:626-900 | In a series of failing boots, boot n chooses recovery if and only if n has reached the budget: never before, always after. |
| Rootfs.RecoveryWithin | Silicon/NVIDIA/Application/L4TLauncher/L4TRootfsValidation.c:626-900 | From a register without magic and with r retries a slot, recovery is chosen by boot 2r + 2 at the latest and stays chosen. |
| Rootfs.NoUnbootableSlot | Silicon/NVIDIA/Application/L4TLauncher/L4TRootfsValidation.c:626-900 | If no unbootable slot has retries left in the register at first, then over the whole series no slot is booted or switched to whose status is unbootable at that time. |
| Rootfs.UnbootableSelected | Silicon/NVIDIA/Application/L4TLauncher/L4TRootfsValidation.c:626-900 | Exactly when one boot, from any register and at any redundancy level, boots or switches to a slot whose status is unbootable. |
| Rootfs.RootfsInfo.ValidateRootfsStatus | Silicon/NVIDIA/Application/L4TLauncher/L4TRootfsValidation.c:626-900 | The code over mRootfsInfo, variables and register: its outcome and all it writes are those of the boot above. |
| Rootfs.RootfsInfo.InitializeRootfsStatusReg | Silicon/NVIDIA/Application/L4TLauncher/L4TRootfsValidation.c:233-303 | Fills in a register without magic, with no retries for an unbootable slot. |
| Rootfs.RootfsInfo.HasValidRootfs | Silicon/NVIDIA/Application/L4TLauncher/L4TRootfsValidation.c:452-472 | When there is a root file system left. |
| Rootfs.RootfsInfo.DecreaseRootfsRetryCount | Silicon/NVIDIA/Application/L4TLauncher/L4TRootfsValidation.c:567-606 | One retry less for the slot, none for the other; a slot above B or a count of zero is refused. |
| Rootfs.RootfsInfo.SetStatusTomRootfsInfo | Silicon/NVIDIA/Application/L4TLauncher/L4TRootfsValidation.c:318-336 | Sets and flags the status of one slot; a slot above B is refused. |
| Rootfs.RootfsInfo.CheckAndUpdateVariable | Silicon/NVIDIA/Application/L4TLauncher/L4TRootfsValidation.c:483-507 | Writes exactly the flagged variables. |
| Rootfs.RootfsInfo.Commit | Silicon/NVIDIA/Application/L4TLauncher/L4TRootfsValidation.c:836-895 | Writes register and variables, and for a switch clears the register and deletes the boot chain status. |
| PlatformSpec.ParseAsciiUint32Field | Silicon/NVIDIA/Application/L4TLauncher/L4TPreIsoInstaller.c:1372-1402 | A field is accepted exactly when it is a non-empty string of digits of value at most 2^32-1, and then gives that value; else the error says whether an overflowing run of digits or another character came first. |
| PlatformSpec.ParseMeans | Silicon/NVIDIA/Application/L4TLauncher/L4TPreIsoInstaller.c:2088-2197 | A string is accepted if and only if its parts between dashes are a number of 1 to 4 digits, a FAB of at most 3 characters, another such number, three parts of no account and a name of 1 to 255 characters that may have dashes; and what is read is those parts. |
| PlatformSpec.SpecRoundTrip | Silicon/NVIDIA/Application/L4TLauncher/L4TPreIsoInstaller.c:1910-1919 | Parsing a TegraPlatformSpec gives back FAB and name if and only if id and SKU are numbers of at most 4 digits, the FAB has no dash and fits, and the name fits; id and SKU then come back too. |
| PlatformSpec.CompatRoundTrip | Silicon/NVIDIA/Application/L4TLauncher/L4TPreIsoInstaller.c:1990-1999 | Parsing a TegraPlatformCompatSpec gives back all four fields if and only if id and SKU are below 10000, the FAB has no dash and fits, and the name fits. |
| PlatformSpec.ReparseReproduces | Silicon/NVIDIA/Application/L4TLauncher/L4TPreIsoInstaller.c:1942-2024 | Re-parsing a generated compat string reproduces the record cached with it if and only if id and SKU are below 10000. |
| PlatformSpec.ParsedIsSmall | Silicon/NVIDIA/Application/L4TLauncher/L4TPreIsoInstaller.c:2088-2197 | Which they are whenever they have been parsed. |
| PlatformSpec.EnsureCaches | Silicon/NVIDIA/Application/L4TLauncher/L4TPreIsoInstaller.c:2212-2333 | On success both variables exist, each cached record is the parse of its variable, an existing TegraPlatformSpec is untouched, and the special case of the Orin Nano SKU 5 is settled. |
| PlatformSpec.EnsureTwice | Silicon/NVIDIA/Application/L4TLauncher/L4TPreIsoInstaller.c:2212-2333 | A second run writes nothing and caches the same, whatever board and device tree it sees. |
| PlatformSpec.EnsureFromNothing | Silicon/NVIDIA/Application/L4TLauncher/L4TPreIsoInstaller.c:2212-2333 | With no TegraPlatformSpec and an EEPROM in order it succeeds, makes both variables whatever compat string there was, and the cached records are the fields the strings were printed from. |
| PlatformSpec.EnsureExisting | Silicon/NVIDIA/Application/L4TLauncher/L4TPreIsoInstaller.c:2212-2333 | With a TegraPlatformSpec: exactly when it succeeds, exactly when the compat string stays, and what a new one is. |
| PlatformSpec.GeneratedIsSuper | Silicon/NVIDIA/Application/L4TLauncher/L4TPreIsoInstaller.c:1976-1980 | A compat string for the Orin Nano SKU 5 always has the super name. |
| PlatformSpec.ResolvedFits | Silicon/NVIDIA/Application/L4TLauncher/L4TPreIsoInstaller.c:1712-1814 | Board name and compatible FAB always fit their buffers. |
| PlatformSpec.ResolvedFab | Silicon/NVIDIA/Application/L4TLauncher/L4TPreIsoInstaller.c:1712-1814 | Which boards get which compatible FAB. |
| PlatformSpec.ResolvedName | Silicon/NVIDIA/Application/L4TLauncher/L4TPreIsoInstaller.c:1712-1814 | Which boards get which name. |
| PlatformSpec.GenerateSpecAnswers | Silicon/NVIDIA/Application/L4TLauncher/L4TPreIsoInstaller.c:1830-1925 | A TegraPlatformSpec can be made of every part number in Tegra format, and always fits. |
| PlatformSpec.CopyPlatformSpecField | Silicon/NVIDIA/Application/L4TLauncher/L4TPreIsoInstaller.c:2041-2068 | Copies one field into the buffer with its NUL, or leaves the buffer alone. |
| PlatformSpec.TegraPlatformSpecInfo.ParseTegraPlatformSpec | Silicon/NVIDIA/Application/L4TLauncher/L4TPreIsoInstaller.c:2088-2197 | The parser over its buffers: status and whole record, also when it fails half way. |
| PlatformSpec.Installer.GeneratePlatformCompatSpecString | Silicon/NVIDIA/Application/L4TLauncher/L4TPreIsoInstaller.c:1942-2024 | The generator and the record it caches. |
| PlatformSpec.Installer.EnsurePlatformSpecVariables | Silicon/NVIDIA/Application/L4TLauncher/L4TPreIsoInstaller.c:2212-2333 | The whole pass over both variables and both records. |
| HobResources.RegisterConserves | Silicon/NVIDIA/PrePi/PrePi.c:308-370 | Registering a firmware volume leaves unchanged how many resource HOBs give each address each type and attributes. |
| HobResources.RegisterIsolates | Silicon/NVIDIA/PrePi/PrePi.c:308-370 | If and only if a memory resource holds the volume: a resource of the type and attributes of the first that does is then exactly the volume, the last HOB is its allocation, reserved or boot services code to match, and every HOB but the one split stays. |
| HobResources.RegisterReserves | Silicon/NVIDIA/PrePi/PrePi.c:177-217 | Afterwards a range is found in a reserved resource if and only if it was before by another resource than the one split, or without crossing an end of the volume. |
| HobResources.MarkAllIs | Silicon/NVIDIA/PrePi/PrePi.c:221-264 | The carveout pass turns exactly the boot-service allocations inside a single reserved resource, into reserved memory. |
| HobResources.MarkAllKeeps | Silicon/NVIDIA/PrePi/PrePi.c:221-264 | It changes no resource, and a second pass changes nothing. |
| HobResources.MarkTestedMarksOnly | Silicon/NVIDIA/PrePi/PrePiMemory.c:153-171 | The split for the HOB list changes nothing but the TESTED attribute of the first piece if and only if no split is made or the region is as long as its resource. |
| HobResources.MovedHasRoom | Silicon/NVIDIA/PrePi/PrePiMemory.c:173-194 | The list moves only to more room: offsets stay, and the free room grows exactly when the region is larger than what the list had. |
| HobResources.MovedSuffices | Silicon/NVIDIA/PrePi/PrePiMemory.c:124-197 | A list that has moved to as much as is needed has that: to migrate again does nothing. |
| HobResources.MemoryAtIsFirst | Silicon/NVIDIA/PrePi/PrePiMemory.c:92-111 | The resource found is the first of system memory at the address. |
| HobResources.TestedSets | Silicon/NVIDIA/PrePi/PrePiMemory.c:171 | The mark sets the tested attribute and changes no other. |
| HobResources.HobList.RegisterFirmwareVolume | Silicon/NVIDIA/PrePi/PrePi.c:287-375 | The search and the splits in place; tells whether a holder was found. |
| HobResources.HobList.IsRangeInReservedResource | Silicon/NVIDIA/PrePi/PrePi.c:177-217 | True exactly when one reserved resource holds the non-empty range, neither wrapping. |
| HobResources.HobList.ReserveBootAllocationsInReservedResources | Silicon/NVIDIA/PrePi/PrePi.c:221-264 | Turns exactly the boot-service allocations inside a single reserved resource into reserved ones. |
| HobResources.HobList.FindMemoryHob | Silicon/NVIDIA/PrePi/PrePiMemory.c:92-111 | The first system memory resource at an address. |
| HobResources.HobList.MigrateHobList | Silicon/NVIDIA/PrePi/PrePiMemory.c:124-197 | Resources, hand-off table and guard allocation after the move, in each of its cases. |

## Left out

- Addresses as bytes inside the page allocator: sizes and bases are pages; page zero and a wrap of the address space are excluded as the code excludes them.
- Descriptor addresses: a descriptor is a heap one or a numbered stack slot; heap descriptors are counted, not told apart.
- MmInitializeMemoryServices: it adds its regions in the order given; that they are disjoint, and each free one as `PageServices.Legal` says, is a premise on runs.
- MmCoreGetMemoryMap: copies the map out in the form of the UEFI Specification; only easy members would come of it.
- Page alignment requests other than one page: no caller in the core makes them.
- DispatcherServices.DriverDispatcher.MmDispatcher: its invariant is for lists with distinct names; for other lists the recursion alone is modelled, by `Scheduling` and the scheduling method.
- MmLoadImage: reading, relocating and entering a PE/COFF image is an arbitrary outcome, with arbitrary installs.
- FFS and section extraction: a driver arrives with its name and its dependency expression as bytes; up to 17 bytes behind a malformed expression are taken to be readable, as the code reads them.
- DepexProtocolError: no code shown sets it.
- A stray BEFORE or AFTER opcode in the middle of an expression: followed as the code falls through, with no claim of meaning beyond `Depex.RunIsExact`.
- Out of memory in the protocol database and in MMI registration: the allocations there are taken to succeed.
- NULL pointer arguments that are checked first: not in the types of the model, except where the answer depends on them.
- Notification functions that themselves uninstall the interface announced: the calls are recorded in order, and not run nested.
- Mmi.MmiServices.MmiHandlerUnRegister: for a handle already freed it answers EFI_INVALID_PARAMETER; the code does not clear the signature on removal (Mmi.c:59-80), so it looks at freed memory.
- MMI communication buffers and contexts: handlers get none.
- EnforceMemoryMapAttribute, image records and the attributes table itself: libraries that are not part of this model.
- Failures of the variable and register services in L4TRootfsValidation: reads and writes succeed; an absent variable reads as 0.
- Logging and the two second delay before a reset: no effect on state.
- GetVariable errors other than a missing variable or one too long for the buffer, and failing SetVariable calls, in EnsurePlatformSpecVariables.
- Reading the EEPROM and the device tree: part number and the two flags found in the tree are parameters.
- HobResources.HobList.RegisterFirmwareVolume: no resource ranges that wrap 64 bits; the code does not look for them, and no caller makes them.
- Running out of room for another HOB: not checked by the code modelled.
- MmEntryPoint, capsule selection, fastboot, boot menus, GRUB and extlinux paths, shell utilities and build scripts: plumbing over firmware services.
