# Kernel memory, scheduling and storage, modelled in Dafny

The system is a small x86-64 kernel. This project models its stateful core in five parts and proves
what each of them keeps over every run.

- **Physical pages** (`Bits`, `PagePool`, `PageDesc`, `PageBoot`, `PageArea`): an area has 52 free lists of
  blocks of 2^k pages, recorded only in the first and last descriptor of a block. The lists are built from
  a descriptor array at boot, split on allocation and merged with any touching block on free.
- **Page tables** (`PageTable`, `PageMap`, `Mmu`): four levels of tables in the layout of section 4.5 of the
  Intel 64 and IA-32 Architectures Software Developer's Manual, Volume 3A, made on demand, reclaimed when
  empty, rolled back on failure.
- **Address regions** (`Regions`, `Boxes`, `Vma`, `UserSpace`, `UserMemory`): a sorted list of address ranges
  with a cached current region, reference-counted boxes that hold the frames mapped in the regions sharing
  them, and the same on top of the page tables.
- **Threads** (`Threads`, `Interleave`, `Sched`): priority lists, semaphores and wait lists, as a system of
  locked sections that interrupts may interleave in any order.
- **Objects and files** (`Slab`, `SlabCache`, `ObjectHeap`, `Rfs`, `RamDisk`): a slab allocator with 64 size
  classes, the same on top of a memory area that lends it pages and takes them back, and a RAM file system that
  stands for a map from names to byte strings.

`Lists` and `Options` hold what all parts use: intrusive lists are sequences with the front first, so the end
at which an element is inserted is kept, and a pointer that may be null is an option.

Each part has two layers. The first is made of values: functions for what an operation does and lemmas over
all states and all runs. The second is a class with the fields the kernel updates in place; its methods follow
the kernel's functions one by one, with their loops, and each contract equates the new state with the function
of the old one, or states the property itself. A branch in which the kernel stops is `assert false`, so every
such branch that is modelled is proved unreachable. Where an object comes from an allocator that may refuse
(a table page, a region descriptor, a box, a frame, a block of pages), it is an optional parameter, and a
contract covers both outcomes.

What callers owe, as preconditions: physical addresses are page aligned, nonzero and below 2^52; pages the
allocators hand out are not in use; the descriptors of an area are fewer than 2^51 and, under the object cache,
in the order of their pages; a string has a terminator.

Some operations do not always do what one might expect. For each of them the exact condition is proved, and
inputs on which it fails are given:

- The boot scan is given the length of the whole array instead of what is left of it: `PageBoot.BootInsideIff`
  and `PageBoot.BootOverruns`.
- The copy of the boot root table keeps entries 1 to 255: `Mmu.AddressSpace.Init` and `Mmu.InitStale`.
- A range given back from an unaligned start: `UserSpace.CutMappedIff` and `UserSpace.UnalignedStrands`.
- A request or a delete whose end wraps at 2^64: `Vma.GrantedIff` and `Vma.WrapShrinks`, `Vma.CutIff` and
  `Vma.WrapCutOverlaps`.
- A fault on a page that is mapped already: `UserSpace.Space.Fault` and `Boxes.Overmapped`.
- A slot freed twice is accepted: `SlabCache.DeleteKeepsIff`, `ObjectHeap.Heap.Delete` and `Slab.GaveTwice`.
- A full directory leaves a marked block that no file owns, so the block map stops being exact:
  `Rfs.CreateLoses` and `RamDisk.LoseBlock`.
- A file may be opened twice or deleted while open, and then a buffer may be stale: `Rfs.AppendsIff` and
  `RamDisk.LoseWriteOnNew`.
- A length whose sum with the write offset wraps passes the room test: `Rfs.SpaceIff`.
- The path scan reads past the bare slash: `RamDisk.Disk.CheckPath`.

## Model

| member | source | states |
|---|---|---|
| PagePool.OrderForIsCeilingLog | hal/x86/memdivmer.c:46-54 | the order computed by the bit scan is the least k with pages <= 2^k |
| PagePool.AllocIsBestFit | hal/x86/memdivmer.c:257-303 | for pages >= 1 a request fails exactly when no free block is large enough; otherwise the front block of the smallest sufficient order is used and fewer than twice the pages are handed out |
| PagePool.AllocLists | hal/x86/memdivmer.c:546-636 | every list after an allocation: the block comes from the front of list d, each order from the one handed out up to d gains the upper half split off at its front, and no other list changes; the biggest-block request fails exactly when nothing is free and takes the front block of the highest list undivided |
| PagePool.AllocKeepsGood | hal/x86/memdivmer.c:546-636 | an allocation keeps the partition of the managed pages into contiguous blocks of 2^k pages and the absence of touching free blocks of one order |
| PagePool.ReleaseKeepsGood | hal/x86/memdivmer.c:1283-1311 | merging upward after a free keeps the partition and leaves no two touching free blocks of one order below the top |
| PagePool.AllocThenRelease | hal/x86/memdivmer.c:1178-1311 | in every good state an allocation followed by the release of its block gives back all 52 free lists, element for element, and the same outstanding blocks |
| PagePool.AllocMovesPages | hal/x86/memdivmer.c:29-44 | an allocation moves exactly the pages of its block from free to allocated |
| PagePool.ReleasePages | hal/x86/memdivmer.c:29-44 | a release adds exactly the pages of the block to the free pages and forgets only that block |
| PagePool.RunKeepsGood | hal/x86/memdivmer.c:1070-1120 | over every run of requests and releases the partition, full coalescing and the number of pages in the area hold in every state |
| PageDesc.HalveDescribed | hal/x86/memdivmer.c:507-542 | listing the second half of a block leaves descriptors that record the new set of blocks |
| PageDesc.FuseDescribed | hal/x86/memdivmer.c:1122-1176 | fusing two neighbours leaves descriptors that record the joined block and no trace of the inner ends |
| PageDesc.MarkTakenDescribed | hal/x86/memdivmer.c:121-176 | marking a block allocated makes its two end descriptors record an outstanding block |
| PageDesc.MarkReturnedDescribed | hal/x86/memdivmer.c:178-254 | clearing the allocation marks makes its two end descriptors record a free block |
| PageDesc.MarksAre | hal/x86/memdivmer.c:121-255 | field by field: taking and returning a block change use count and allocation mark at its two ends only and link the first descriptor to the last; returning links the last one to its list |
| PageArea.AcceptedIffLive | hal/x86/memdivmer.c:976-1003 | every condition on the free path together accepts a start and page count exactly when that block is outstanding with exactly that many pages |
| PageBoot.BootInsideIff | hal/x86/memarea.c:384-400 | the boot loop, whose scan is given the whole array length, reports only runs inside the array if and only if the array is empty, the descriptor behind it does not continue the last one, or the whole array is one run |
| PageBoot.BootOverruns | hal/x86/memarea.c:384-400 | a concrete family of three-descriptor arrays on which the boot loop from index 0 reports a run that ends outside the two it was given |
| PageBoot.TileDigits | hal/x86/memarea.c:633-703 | greedy tiling turns a run into one block for each binary digit 1 of its length |
| PageBoot.TilePlaces | hal/x86/memarea.c:633-703 | for each order k whose binary digit in the length is 1, the block put in front of list k starts at s + len / 2^(k+1) * 2^(k+1), behind the blocks of all higher digits; the lists of the digits 0 are as before |
| PageBoot.BootLands | hal/x86/memarea.c:705-745 | after boot list k holds exactly the places of the blocks of order k of the maximal runs of free contiguous pages, in descending order |
| PageBoot.BootGood | hal/x86/memarea.c:705-745 | after the scan and tiling of any descriptor array on which the boot loop stays inside, a single run included, the free lists partition the descriptors of that area type with no use count, no owner type and no allocation mark, and are fully coalesced |
| PageArea.Area.constructor | hal/x86/memarea.c:705-745 | building an area in place leaves the lists of the layout function, which hold for every maximal run and every binary digit of its length the block at its place, the last run first; counters equal list lengths, page counts add up, and descriptors outside the area are untouched |
| PageArea.Area.ScanLength | hal/x86/memarea.c:198-228 | the loop returns the length of the maximal contiguous run and never meets the error branch |
| PageArea.Area.FindOrder | hal/x86/memarea.c:538-571 | the list loop returns the largest order that fits the run, and nothing from 2^51 pages on |
| PageArea.Area.TileRun | hal/x86/memarea.c:633-703 | the terminating loop puts the block of each binary digit 1 of the length at the front of its list, at the place behind the larger ones, leaves the other lists, and shapes the descriptors |
| PageArea.Area.AddBlock | hal/x86/memarea.c:605-631 | a block goes to the front of its list, with counters, page counts and descriptors |
| PageArea.Area.FindFit | hal/x86/memdivmer.c:257-303 | the search loop finds the smallest non-empty sufficient order |
| PageArea.Area.FindBiggest | hal/x86/memdivmer.c:109-119 | the downward loop finds the largest non-empty order |
| PageArea.Area.PopFront | hal/x86/memdivmer.c:363-403 | the front block leaves its list with both counters, and its end is read from the descriptors |
| PageArea.Area.AddHalf | hal/x86/memdivmer.c:507-544 | a half is listed exactly when its size and both end descriptors are as required |
| PageArea.Area.MarkAllocated | hal/x86/memdivmer.c:121-176 | no error branch is reached and afterwards descriptors record the block as outstanding |
| PageArea.Area.TakeFrom | hal/x86/memdivmer.c:546-637 | the split loop reaches no error branch and leaves the lists of successive halving |
| PageArea.Area.Allocate | hal/x86/memdivmer.c:639-670 | allocation refines the list function, moves the page counts by the pages handed out, keeps every invariant, and changes nothing on failure |
| PageArea.Area.Check | hal/x86/memdivmer.c:70-93 | the conditions on the free path hold exactly for an outstanding block with its page count |
| PageArea.Area.MarkFreed | hal/x86/memdivmer.c:178-255 | neither an error branch nor the return for shared pages is reached for an outstanding block, and its descriptors become those of a free one |
| PageArea.Area.Compare | hal/x86/memdivmer.c:1070-1120 | two free blocks compare as neighbours exactly when they touch in descriptor index and page number, on the side reported |
| PageArea.Area.Probe | hal/x86/memdivmer.c:1005-1068 | listed blocks always pass the shape conditions, so the neighbour comparison is reached |
| PageArea.Area.FindTouching | hal/x86/memdivmer.c:1178-1245 | the list scan returns the first touching block and its side |
| PageArea.Area.FuseFlags | hal/x86/memdivmer.c:1122-1176 | the four descriptor writes have the fused shape and the following conditions all hold |
| PageArea.Area.TryMerge | hal/x86/memdivmer.c:1178-1245 | one merge round joins the block with the first touching one, or changes nothing |
| PageArea.Area.AddFree | hal/x86/memdivmer.c:1247-1281 | the merged block goes to the front of its list without an error branch |
| PageArea.Area.MergeUp | hal/x86/memdivmer.c:1283-1311 | the merge loop equals the recursive release |
| PageArea.Area.Free | hal/x86/memdivmer.c:1313-1448 | freeing succeeds exactly for an outstanding block with exactly its page count, whatever happened in between, and then refines release and moves the page counts; otherwise nothing changes |
| PageArea.AllocateThenFree | hal/x86/memdivmer.c:717-761 | allocating and freeing at once restores every free list in order and both page counts, and the free never fails |
| PageTable.IndicesArePage | include/halinc/halmmu.h:43-61 | the four indices agree exactly when two user addresses lie in one page |
| PageTable.IndexDigits | include/halinc/halmmu.h:43-61 | the four indices of a user address are the base-512 digits of its page number, the top one first |
| PageTable.EntryRoundTrip | include/halinc/halmmu.h:194-230 | packing a page address with flags gives an entry with exactly those flags in its low 12 bits and exactly that page number above them; unpacking gives the address back, and the entry counts as present |
| PageTable.SameTable | hal/x86/halmmu.c:635-719 | two addresses that reach one table agree on every index above it |
| PageMap.TransformMaps | hal/x86/halmmu.c:563-624 | a transform succeeds exactly when every level has its table or is offered a page for one; then it changes the translation of one page to the given address and of no other page, and leaves no empty table |
| PageMap.TransformEnters | hal/x86/halmmu.c:563-624 | a successful transform writes the leaf entry with the page number and flags given, gives each table it makes an entry with the same flags and otherwise zeros, puts it at the front of its list, and leaves every other entry of every older table as it was |
| PageMap.EnteredFlags | hal/x86/halmmu.c:381-417 | mapping with the same flags throughout leaves no entry of the user half with other flags |
| PageMap.UntransformFlags | hal/x86/halmmu.c:721-760 | unmapping leaves the flags of every entry still in use |
| PageMap.TransformFailureRestores | hal/x86/halmmu.c:583-620 | a transform that fails at any level leaves tables and table lists as they were |
| PageMap.UntransformUnmaps | hal/x86/halmmu.c:721-760 | untransform returns exactly the mapped address, removes that page only, gives back every table it empties, and changes nothing for an unmapped address |
| PageMap.MapThenUnmap | hal/x86/halmmu.c:309-379 | mapping an unmapped page and unmapping it restores tables and lists exactly |
| PageMap.RunRefines | hal/x86/halmmu.c:563-760 | in every run of maps and unmaps the tables stay a tree without empty tables and translate every user address as a flat map from pages to frames does |
| Mmu.IsAllZero | include/halinc/halmmu.h:164-174 | the scan of a table says true exactly when every entry is zero |
| Mmu.AddressSpace.constructor | hal/x86/halmmu.c:7-28 | an address space without tables |
| Mmu.AddressSpace.NewTable | hal/x86/halmmu.c:240-263 | a fresh page becomes a zero table at the front of its list, with its counter |
| Mmu.AddressSpace.DelTable | hal/x86/halmmu.c:265-307 | exactly the given table leaves its list, its counter follows, and its page is returned |
| Mmu.AddressSpace.EnsureTable | hal/x86/halmmu.c:381-417 | the table below an entry is found, or made from the offered page at the front of its list, and then the entry above it has the page number of the new table and the flags given |
| Mmu.AddressSpace.ReclaimTable | hal/x86/halmmu.c:347-379 | a table that is all zero is unlinked and returned, as on values |
| Mmu.AddressSpace.MapPage | hal/x86/halmmu.c:563-624 | the in-place transform refines the one on values and succeeds under the same exact condition: the leaf entry and the entries of made tables have the flags and page numbers stated, every other entry is unchanged and one translation changes, or on failure tables, lists and counters are as before |
| Mmu.AddressSpace.UnmapPage | hal/x86/halmmu.c:721-760 | the in-place untransform refines the one on values and returns exactly the address last mapped |
| Mmu.NewRootIff | hal/x86/halmmu.c:800-836 | a root without tables below it satisfies the tree invariant if and only if its user half is zero |
| Mmu.AddressSpace.Init | hal/x86/halmmu.c:800-836 | a new root is the boot table without entry 0; the space is in order if and only if entries 1 to 255 of the boot table were empty, and then maps no user page |
| Mmu.InitStale | hal/x86/halmmu.c:800-836 | with entry 1 of the boot table in use the new space is made and is not in order |
| Mmu.AddressSpace.CleanLevel | hal/x86/halmmu.c:838-858 | the loop returns exactly the pages of one table list, front first |
| Mmu.AddressSpace.Clean | hal/x86/halmmu.c:926-978 | clean is refused for the loaded root; otherwise it returns exactly the tables this space created, each once, lowest level first, and none of the shared ones |
| Regions.ScanIsUnique | kernel/krlvadrsmem.c:1035-1056 | in a sorted list a region that holds an address or a range, found any way, is the one the plain scan finds |
| Regions.ExtendCovers | kernel/krlvadrsmem.c:506-512 | growing a region keeps the list sorted and adds exactly the range behind it |
| Regions.InsertCovers | kernel/krlvadrsmem.c:520-538 | inserting a region keeps the list sorted and adds exactly its range |
| Regions.CutCovers | kernel/krlvadrsmem.c:652-736 | cutting a range out keeps the list sorted and removes exactly that range in all four cases |
| Regions.CutSame | kernel/krlvadrsmem.c:652-736 | every address still covered after a cut lies in a region with the limits, kind and box it had, and with the same identity unless it is the upper piece of a split |
| Boxes.BoxPagesExact | kernel/krlvadrsmem.c:616-636 | the page list of a box is exactly the set of frames mapped in regions that point at the box |
| Boxes.FramesAscend | kernel/krlvadrsmem.c:616-636 | the frames of a range are one for each mapped page, and the frame of a page stands behind those of the mapped pages below it |
| Boxes.PutInIs | kernel/krlvadrsmem.c:1135-1158 | a frame goes to the front of the page list of its box, which counts it; references and all other boxes are as before |
| Boxes.UnreferencedIsEmpty | kernel/krlvadrsmem.c:1504-1546 | a box no region points at has an empty page list |
| Boxes.CountCut | kernel/krlvadrsmem.c:690-722 | cutting changes the number of regions pointing at a box by the number of pieces left minus one |
| Boxes.LedgerAdd | kernel/krlvadrsmem.c:1135-1158 | mapping a fresh frame at an unmapped page keeps page lists and mappings in step |
| Boxes.LedgerDrop | kernel/krlvadrsmem.c:1079-1133 | unmapping a page takes exactly its frame out of its box |
| Boxes.Overmapped | kernel/krlvadrsmem.c:1160-1184 | mapping a page that is mapped already leaves its frame listed and mapped nowhere, and no assignment of pages to boxes puts the ledger right |
| Vma.PickFailsIff | kernel/krlvadrsmem.c:435-488 | whatever region is cached, the search fails exactly when the range fits behind no region; else it is the cached region if that has the limits and kind asked for and the range fits behind it, else the first such region, else the first behind which it fits |
| Vma.RoundWraps | include/knlinc/krlvadrsmem_t.h:234 | rounding a 64-bit size up to pages is the rounded size modulo 2^64 |
| Vma.GrantedCovers | kernel/krlvadrsmem.c:490-544 | a granted request adds exactly [x, x + size), a range nothing covered before, and keeps the list sorted and aligned |
| Vma.GrantedIs | kernel/krlvadrsmem.c:490-544 | a region grows exactly when the range starts at its end and limits and kind are those asked for, written out; otherwise a new region behind it has the identity, start, wrapped end, limits and kind of the request and no box |
| Vma.GrantedSame | kernel/krlvadrsmem.c:490-544 | after a grant each address of the new range lies in a region with the limits and kind of the request, and each address covered before lies in a region with the identity, start, limits, kind and box it had |
| Vma.GrantedThenCut | kernel/krlvadrsmem.c:490-736 | cutting a granted range out again finds it by the delete scan and gives the old list back, whether it grew a region or made one |
| UserSpace.Space.constructor | kernel/krlvadrsmem.c:226-290 | with three descriptors the regions are the first code pages, the heap page and the stack, each with its identity, kind, limits and no box, the cached and last region included; without one of them the space has no address at all |
| UserSpace.Space.FindAt | kernel/krlvadrsmem.c:1035-1056 | the cache-first fault lookup returns the region of the plain scan |
| UserSpace.CacheIsPlain | kernel/krlvadrsmem.c:563-589 | unless the end of the range wraps, looking at the cached region first finds the region of the plain scan |
| UserSpace.Space.FindAround | kernel/krlvadrsmem.c:563-589 | the delete lookup returns the cached region when it passes the tests on 64-bit numbers, else the first that does |
| UserSpace.Space.FindPlace | kernel/krlvadrsmem.c:435-488 | the three-stage search picks the cached alike region, else the first alike, else the first that fits |
| Vma.GrantedIff | kernel/krlvadrsmem.c:392-544 | a granted request adds exactly its range if and only if start plus size does not wrap at 2^64 |
| Vma.WrapShrinks | kernel/krlvadrsmem.c:435-512 | a concrete request whose end wraps is granted behind the first code pages and takes one of them away |
| Vma.CutIff | kernel/krlvadrsmem.c:563-736 | a delete that passes the tests leaves a list in order without exactly its range if and only if start plus size does not wrap at 2^64 |
| Vma.WrapCutOverlaps | kernel/krlvadrsmem.c:563-736 | a concrete delete whose end wraps is accepted in the first code pages and leaves two regions that overlap |
| UserSpace.Space.Reserve | kernel/krlvadrsmem.c:546-561 | on 64-bit numbers a request succeeds exactly as stated by the chosen place and honours a given start; it adds exactly [ret, ret + rounded size) if and only if its end does not wrap, and then the range was uncovered, has the limits and kind of the request, every other address keeps identity, start, limits, kind and box of its region, and every invariant is kept; a refusal changes nothing |
| UserSpace.Space.ReserveCore | kernel/krlvadrsmem.c:490-544 | the new list, the cached and the last region follow the choice of place, wrapped or not; without a wrap the new range has the limits and kind of the request and every address covered before keeps the region it was in, but for its end |
| UserSpace.Space.GetBox | kernel/krlvadrsmem.c:1464-1502 | a box comes empty with one reference, the front one of the cache before the allocator, and goes to the front of the used list, with both lists and both counters; the kernel stops exactly when neither has one |
| UserSpace.Space.PutBox | kernel/krlvadrsmem.c:1504-1546 | the last reference takes the box out of the used list and files it at the front of the cache, or drops it when the cache is full, with both lists and both counters |
| UserSpace.Space.DropFrame | kernel/krlvadrsmem.c:1079-1133 | exactly the given frame leaves the list and is returned, and nothing happens when it is not there |
| UserSpace.Space.BoxOf | kernel/krlvadrsmem.c:1058-1077 | a region gets a box on its first fault only, and every reference count still equals the number of regions |
| UserSpace.Space.MapFrame | kernel/krlvadrsmem.c:1160-1184 | the frame is mapped and listed, or returned with box and mappings as before when mapping fails; the space stays in order if and only if it did not replace a mapping, and a replaced frame stays listed and mapped nowhere |
| UserSpace.Space.FillText | kernel/krlvadrsmem.c:1197-1222 | a page of a program region gets, byte for byte, the page of the image as far behind its start as the address is behind the region start; the kernel stops exactly without an image |
| UserSpace.Space.Fault | kernel/krlvadrsmem.c:1224-1269 | each outcome, stops included, has its exact condition; success maps exactly one page to the frame and fills program pages from the image, failure maps nothing and returns the frame, and coverage never changes; after success the space is in order if and only if the page was not mapped before |
| UserSpace.Space.Unmap | kernel/krlvadrsmem.c:616-650 | the loop unmaps exactly the pages of the range, none when its end wrapped, and returns exactly their frames in ascending order |
| UserSpace.Space.Unpoint | kernel/krlvadrsmem.c:591-614 | the cached and last pointers move to a neighbour of the region about to go |
| UserSpace.Space.CountBox | kernel/krlvadrsmem.c:1444-1452 | one more reference, with list and page list as before |
| UserSpace.CutAlignedIff | kernel/krlvadrsmem.c:652-736 | what is left of a region after cutting out whole pages is page aligned if and only if the cut starts at a page |
| UserSpace.CutMappedIff | kernel/krlvadrsmem.c:616-736 | after a delete every mapped page lies in a region if and only if the start is page aligned or the page behind the last one unmapped was not mapped |
| UserSpace.CutSorts | kernel/krlvadrsmem.c:652-736 | a cut changes limits, kind and box of no address that stays covered |
| UserSpace.UnalignedStrands | kernel/krlvadrsmem.c:616-736 | a concrete unaligned delete in the first code pages after which page 0x2000 is mapped and lies in no region |
| UserSpace.Space.Cut | kernel/krlvadrsmem.c:664-733 | each of the four cases yields the list without the range, the remaining mappings and the frames returned, for every start and end that pass the tests; only a split without descriptor fails, and then nothing changes |
| UserSpace.Space.GiveBackCore | kernel/krlvadrsmem.c:652-736 | for any start and size, in all four cases the list, the mappings, the frames returned, the box counts and both pointers come out as stated, and failure changes nothing; the list is in order without exactly the range if and only if the end does not wrap, and then all invariants hold if and only if the start is page aligned |
| UserSpace.Space.GiveBack | kernel/krlvadrsmem.c:738-745 | on 64-bit numbers a delete succeeds exactly when a region passes the tests (and a descriptor is there for a split), with the outcome of the core for the rounded size |
| UserSpace.Space.ReserveThenGiveBack | kernel/krlvadrsmem.c:490-736 | reserving a range that does not wrap and giving it back at once restores the region list element for element, the mappings and the returned frames |
| UserSpace.Space.NothingLeaks | kernel/krlvadrsmem.c:1464-1546 | in every reachable state a box is in use exactly while a region points at it, its list is exactly the frames mapped in those regions, a box out of use is empty, no frame is mapped twice, and a frame was taken once more often than returned exactly when it is mapped |
| UserMemory.Memory.constructor | kernel/krlvadrsmem.c:327-339 | a new process with fresh tables has nothing mapped in either |
| UserMemory.TransformTakes | hal/x86/halmmu.c:563-624 | a transform takes no page for its tables but those it is offered |
| UserMemory.WalkIsFind | include/halinc/halmmu_t.h:25-48 | where every entry in use has the user, writable and present bits and no others, the walk of the processor for a write in user mode, over the bits of the address and the entries as numbers, reaches exactly the table or page the kernel finds |
| UserMemory.Memory.ProcessorSees | kernel/krlvadrsmem.c:1224-1269 | in every reachable state, that walk from the root of the process yields for a user address exactly the frame the regions have mapped there, and faults where nothing is mapped |
| UserMemory.Memory.Fault | kernel/krlvadrsmem.c:1160-1269 | with the page tables of the process a fault succeeds exactly when region, box, frame and table pages are there; then the processor, writing in user mode, reaches the frame at that address, the leaf and each made table entry carry exactly the user, writable and present bits, and every other entry is unchanged; always the tables translate exactly what the regions have mapped, with no table page among the frames |
| UserMemory.Memory.UnmapRange | kernel/krlvadrsmem.c:616-636 | the loop over the tables returns exactly the frames mapped in the range, in ascending order, and leaves tables that translate the rest |
| UserMemory.Memory.GiveBack | kernel/krlvadrsmem.c:652-745 | with the page tables of the process the frames given back are exactly those the tables had in the range, and afterwards the tables translate exactly what is still mapped, aligned or not, wrapped or not |
| Threads.OnePlace | kernel/krlsched.c:71-144 | every created thread is in exactly one place, which its status names: ready list or slot of its priority, one wait list, or the exit list |
| Threads.ParkKeeps | kernel/krlsched.c:71-109 | parking keeps the one-place invariant, the lane counts and the semaphore balance |
| Threads.RiseKeeps | kernel/krlsched.c:111-144 | waking keeps them too, and the front waiter always exists with a valid priority |
| Threads.DownKeeps | kernel/krlsem.c:26-42 | one pass of down keeps all invariants, including that nobody waits on an available semaphore |
| Threads.DownDoes | kernel/krlsem.c:26-42 | a pass of down that finds nothing puts the caller at index 0 of the wait list with the others behind it in order, sets its status to waiting and empties its slot; one that takes the semaphore changes its count only; no priority, no other thread, no ready list and no other semaphore changes |
| Threads.UpKeeps | kernel/krlsem.c:44-59 | up counts once, leaves nobody waiting on that semaphore and touches no other semaphore |
| Threads.RiseAllAppends | kernel/krlwaitlist.c:30-37 | waking all appends the waiters of each priority to its ready list in wait-list order |
| Threads.RiseAllInfo | kernel/krlwaitlist.c:30-37 | waking all makes every waiter run, and changes nobody else and no priority |
| Threads.RiseAllSlots | kernel/krlwaitlist.c:30-37 | waking all changes the running thread of no priority |
| Threads.SwitchKeeps | kernel/krlsched.c:207-252 | selection and switch keep all invariants, and the thread switched to holds the slot of its priority unless it is idle |
| Threads.SwitchDoes | kernel/krlsched.c:207-252 | the best priority with anybody in it has its front ready thread run and its running thread go to the tail of its list, or goes on with its running thread; every other list is as it was and only the thread switched to changes state; with nobody anywhere idle runs |
| Threads.IdleIff | kernel/krlsched.c:241-246 | idle is chosen exactly when no created thread can run |
| Threads.CreateKeeps | kernel/krlsched.c:324-340 | adding a new thread keeps all invariants |
| Threads.CreateDoes | kernel/krlsched.c:324-340 | a new thread has the priority asked for, is new, and stands at the front of the ready list of that priority; nothing else changes but the count of that list |
| Threads.LeaveKeeps | kernel/krlsched.c:269-292 | exit keeps all invariants |
| Threads.LeaveDoes | kernel/krlsched.c:269-292 | exit takes the running thread from its slot to the front of the exit list, keeps every priority and changes nobody else |
| Interleave.BootInv | kernel/krlsched.c:15-51 | the initial system, with idle running, 64 empty lists, no thread and the semaphore counts given, satisfies the invariant |
| Interleave.StepKeeps | kernel/krlsem.c:26-59 | every locked section keeps the invariant, also when an interrupt raises the semaphore or switches threads between a parking and its switch |
| Interleave.RunKeeps | kernel/krlsched.c:71-144 | in every state of every interleaved run each thread is in the one place its status names, tdl_nr is the ready length plus the occupied slot, and an available semaphore has an empty wait list |
| Interleave.StepPriority | kernel/krlsched.c:71-144 | no step changes the priority of a thread, and none forgets a thread |
| Interleave.RunPriority | kernel/krlsched.c:71-144 | over every run each thread keeps the priority it has |
| Interleave.RunCounts | kernel/krlsem.c:26-59 | the history counters count the ups of a run and the passes of down that took the semaphore |
| Interleave.NoLostWakeUp | kernel/krlsem.c:26-59 | from boot on and over all interleavings of parking, waking, switching, creating and exiting: sem_count = initial + ups - completed downs, it is never negative, and a positive count means an empty wait list |
| Interleave.StepWaits | kernel/krlsched.c:207-252 | a step that does not select a waiting thread moves it one place up when it selects, one down when it creates a thread of that priority, and not otherwise |
| Interleave.BoundedWaiting | kernel/krlsched.c:207-252 | a thread at position k of the best runnable priority is selected within k + 1 selections plus one per thread created at that priority, as long as nothing better can run |
| Sched.Scheduler.constructor | kernel/krlsched.c:15-51 | empty lists, idle running, semaphores with their counts |
| Sched.Scheduler.WaitOn | kernel/krlsched.c:71-109 | refines parking, whose effect Threads.DownDoes states place by place, and reaches no stop |
| Sched.Scheduler.TakeWaiter | kernel/krlwaitlist.c:50-74 | the front waiter leaves the list with its count, or none is returned for an empty list |
| Sched.Scheduler.WakeOne | kernel/krlsched.c:111-144 | refines waking the front waiter and reaches no stop |
| Sched.Scheduler.WakeAll | kernel/krlwaitlist.c:30-37 | the loop refines waking all |
| Sched.Scheduler.TryDown | kernel/krlsem.c:26-42 | refines one pass of down, whose effect Threads.DownDoes states: taken exactly when the count was at least one |
| Sched.Scheduler.Raise | kernel/krlsem.c:44-59 | refines up, reaches no stop and asks for a switch |
| Sched.Scheduler.Select | kernel/krlsched.c:207-252 | the two scan loops serve the first runnable thread of the best priority, else its slot, else idle |
| Sched.Scheduler.Schedule | kernel/krlsched.c:254-267 | refines selection and switch, except that the first switch to idle selects nobody |
| Sched.Scheduler.CheckPreempt | kernel/krlsched.c:182-205 | at the end of an interrupt a switch happens exactly when one was asked for, and the request is used up |
| Sched.Scheduler.RaiseThenInterrupts | kernel/krlsched.c:182-205 | after an up the next interrupt switches to the best thread, the woken ones included, and the one after it does not |
| Sched.Scheduler.Add | kernel/krlsched.c:324-340 | a new thread goes to the front of its ready list |
| Sched.Scheduler.Quit | kernel/krlsched.c:294-322 | the running thread leaves its slot for the exit list and no stop is reached |
| Sched.Take | kernel/krlsched.c:254-267 | the object takes every enabled step of the interleaved system |
| Slab.SlotIff | hal/x86/kmsob.c:232-248 | the address test on the free path accepts exactly the slots carved at creation |
| Slab.AcceptIff | hal/x86/kmsob.c:168-287 | both scans together accept an address exactly when it is a slot of the slab or of one of its extensions |
| Slab.CreatedOk | hal/x86/kmsob.c:395-440 | a new slab has every slot free, its counters right, and at least one slot |
| Slab.CreatedDoes | hal/x86/kmsob.c:395-440 | a new slab in numbers: behind a header of 368 bytes as many slots as fit below the last byte, all free, the last one first in the list, and nothing extended |
| Slab.SizesAre | hal/x86/kmsob.c:442-463 | for every size from 1 to 2048 bytes the class size is the next multiple of 32, and its slab has 1 page up to 128 bytes, 2 up to 512 and 4 above |
| Slab.ExtendedOk | hal/x86/kmsob.c:507-578 | an extension adds exactly its slots and its block and keeps the partition into live and free |
| Slab.ExtendedDoes | hal/x86/kmsob.c:507-578 | an extension in numbers: behind a header of 48 bytes as many slots as fit, the last one first and in front of the old free slots; its block goes to the front of list 0, 1 or 2 for sizes up to 128, 512 and above, whose counter alone changes |
| Slab.TookOk | hal/x86/kmsob.c:491-505 | the object taken was not live and the partition stays |
| Slab.GaveOk | hal/x86/kmsob.c:737-757 | a live object given back becomes a free slot and the partition stays |
| Slab.CountsLive | hal/x86/kmsob.c:648-663 | so_mobjnr exceeds so_fobjnr by the number of live objects, so they are equal exactly when nothing is live |
| Slab.LiveApart | hal/x86/kmsob.c:603-637 | two live objects of any classes never share a byte |
| Slab.GaveTwice | hal/x86/kmsob.c:737-757 | a slot given back while it is free leaves a slab that is wrong for every set of live objects |
| SlabCache.DeleteIff | hal/x86/kmsob.c:779-814 | for every address the scans accept it in a class exactly when it is a slot of the class, which is either free or live |
| SlabCache.DeleteKeepsIff | hal/x86/kmsob.c:711-757 | giving any slot back keeps every class in order if and only if the slot held a live object |
| SlabCache.NewKeeps | hal/x86/kmsob.c:603-637 | taking an object, after making room when needed, yields an address not live before and keeps every class in order |
| SlabCache.DeleteKeeps | hal/x86/kmsob.c:711-757 | giving an object back keeps every class in order, with the slab gone when it was the last |
| SlabCache.Cache.constructor | hal/x86/kmsob.c:87-101 | 64 empty classes |
| SlabCache.Cache.FindClass | hal/x86/kmsob.c:364-378 | the first class large enough |
| SlabCache.Cache.FindForNew | hal/x86/kmsob.c:306-333 | a slab large enough is found whenever the class has one |
| SlabCache.Cache.TestClaim | hal/x86/kmsob.c:168-204 | true exactly when some block holds the range behind its header |
| SlabCache.Cache.TestSlot | hal/x86/kmsob.c:250-287 | true exactly when the address is a slot of the block that spans it |
| SlabCache.Cache.CarveSlots | hal/x86/kmsob.c:424-438 | the loop pushes exactly the slots, last one first, and counts them |
| SlabCache.Cache.MakeSlab | hal/x86/kmsob.c:395-440 | the initialised header is the slab of the creation function |
| SlabCache.Cache.ExtendSlab | hal/x86/kmsob.c:507-578 | the extended header is the slab of the extension function |
| SlabCache.Cache.Prepare | hal/x86/kmsob.c:603-625 | a class never gets a second slab: an existing one is used or extended, and a new one is made only when there is none |
| SlabCache.Cache.TakeObject | hal/x86/kmsob.c:206-230 | the front free slot is handed out exactly when every condition on counters, sizes and list holds |
| SlabCache.Cache.New | hal/x86/kmsob.c:603-646 | an object is refused exactly for a bad size or when neither a free slot nor a block, of 1, 2 or 4 pages by the size asked for, is there; otherwise its address is the front free slot of the class, extended or made anew as stated, was not live, and a block is drawn only when the class has none free |
| SlabCache.Cache.FindForDelete | hal/x86/kmsob.c:335-362 | a slab that claims the address is found whenever there is one |
| SlabCache.Cache.ReleaseBlocks | hal/x86/kmsob.c:665-709 | the two loops return exactly the extension blocks and the slab's own block, each with its page count |
| SlabCache.Cache.PutBack | hal/x86/kmsob.c:737-757 | an object is taken back exactly when the counter and the slot test allow it |
| SlabCache.Cache.Settle | hal/x86/kmsob.c:711-736 | after a slot went back the slab is dropped with all its blocks exactly when every slot counts as free, else it is remembered; the impossible count is never seen |
| SlabCache.Cache.Delete | hal/x86/kmsob.c:779-823 | for every address and size a delete succeeds exactly for a slot of the class of the size, with lists, counters, cached slabs and returned blocks as stated; the cache stays in order if and only if the slot held a live object |
| SlabCache.Cache.NewThenDelete | hal/x86/kmsob.c:603-823 | taking an object and giving it back restores the live objects; from a free slot it restores every slab, and from a new slab it returns exactly the block drawn |
| ObjectHeap.LentApart | hal/x86/kmsob.c:442-488 | two outstanding allocations of an area never share a page |
| ObjectHeap.Heap.Obtain | hal/x86/kmsob.c:507-540 | the block an area hands out lies apart from every block the cache holds and has exactly the pages asked for |
| ObjectHeap.Heap.New | hal/x86/kmsob.c:603-646 | on an area, an object is refused exactly for a size outside 1 to 2048, or when its slab is missing or full and the area has no free block of at least 1, 2 or 4 pages for sizes up to 128, 512 and above; exactly that many pages leave the free count of the area when a slab is missing or full, and none otherwise; a refusal takes nothing |
| ObjectHeap.Heap.ReturnAll | hal/x86/kmsob.c:665-709 | the area accepts every block a dropped slab returns |
| ObjectHeap.Heap.Delete | hal/x86/kmsob.c:711-823 | for every address: the last slot of a slab returns every block of it to the area; area and foreign allocations stay in order, the whole does if and only if the slot held a live object, and a double free drops the slab exactly when one object of the class is live |
| ObjectHeap.Heap.Drained | hal/x86/kmsob.c:665-709 | once all objects are deleted the area has exactly the allocations it has from elsewhere |
| Rfs.RefinesUnique | drivers/drvrfs.c:911-956 | a disk stands for one map from names to contents only |
| Rfs.StoreKeeps | drivers/drvrfs.c:453-494 | storing a buffer gives its contents to the file that owns the block, if any, and touches no other |
| Rfs.AppendsIff | drivers/drvrfs.c:453-470 | a write through a buffer appends to the file it was opened for if and only if that file still owns the block and still has the contents of the buffer |
| Rfs.SpaceIff | drivers/drvrfs.c:453-470 | on 64-bit numbers the room test accepts exactly the lengths that fit and those whose sum with the offset wraps |
| Rfs.AddKeeps | drivers/drvrfs.c:570-627 | a new entry with an unmarked block adds an empty file and keeps names and blocks distinct |
| Rfs.CreatedIs | drivers/drvrfs.c:570-627 | what creation writes: the mark of the first unmarked block and, unless the directory is full or unreadable, a file header of size 0 with 3584 zero bytes in that block and the next directory entry; every other block is as it was |
| Rfs.RemoveKeeps | drivers/drvrfs.c:648-692 | deleting an entry removes that name only |
| Rfs.RemovedIs | drivers/drvrfs.c:648-692 | what deletion writes: the mark of the block of the entry is cleared, the entry becomes a deleted one without block and name, and no other entry, mark or block changes |
| Rfs.ExactIff | drivers/drvrfs.c:829-869 | the block map is exact if and only if no marked block is without owner |
| Rfs.MarkLoses | drivers/drvrfs.c:829-850 | marking an unmarked block without giving it to a file loses exactly that block |
| Rfs.CreateLoses | drivers/drvrfs.c:570-627 | creation loses a block if and only if a block is unmarked and the directory is full or no buffer is left to read it, and then exactly that block |
| Rfs.RemoveLoses | drivers/drvrfs.c:648-692 | deletion loses no block and finds none again |
| RamDisk.Disk.constructor | drivers/drvrfs.c:433-451 | formatting yields a super block that names block map 1, all n blocks and root directory 2, the empty map of files, an exact block map and an empty root directory |
| RamDisk.Disk.MakeMap | drivers/drvrfs.c:977-1014 | exactly the blocks from 2 to the end of the device are unmarked |
| RamDisk.Disk.NewBlock | drivers/drvrfs.c:829-850 | exactly the first unmarked block is marked, or none is left |
| RamDisk.Disk.FreeBlock | drivers/drvrfs.c:852-869 | exactly that block is unmarked |
| RamDisk.Disk.CheckPath | drivers/drvrfs.c:871-894 | a path other than the bare slash is accepted exactly when it is a slash and a name that fits without further slashes; for the bare slash the answer is stated in terms of the memory behind it |
| RamDisk.Disk.Lookup | drivers/drvrfs.c:929-951 | the entry loop returns the first live entry of that name |
| RamDisk.Disk.NewFile | drivers/drvrfs.c:308-322 | creation succeeds exactly for a good path, a name not in use, an unmarked block, a free entry and enough buffers; the whole new disk is stated, current buffers stay current, and the block map stays exact if and only if it was and not (good new name, unmarked block, directory full or unreadable for lack of a buffer) |
| RamDisk.Disk.AddFile | drivers/drvrfs.c:570-627 | the whole new disk: block, entry and both headers are written, or with a full directory, or none readable, the block found stays marked without an owner and every file is as it was |
| RamDisk.LoseBlock | drivers/drvrfs.c:570-627 | on every device with room for 29 files, 28 creations and one more leave a block map that is not exact |
| RamDisk.Disk.DeleteFile | drivers/drvrfs.c:629-692 | deletion succeeds exactly for an existing name, open or not, with a buffer for the directory; it removes only it, with the whole new disk stated, keeps the block map as exact as it was, and leaves the buffers of other files current |
| RamDisk.Disk.Open | drivers/drvrfs.c:496-568 | opening succeeds exactly for an existing name, open already or not, when a buffer is there; the new buffer is current and so stay the others |
| RamDisk.Disk.Write | drivers/drvrfs.c:453-470 | a write succeeds exactly while it fits; a current buffer appends to its file only and stays current, what a stale one does is stated, the buffer goes to its own block and to no other, and the other buffers and the directory stay as they were |
| RamDisk.LoseWrite | drivers/drvrfs.c:453-470 | with two current buffers of one file, what is written through the first is lost when something is written through the second, and the first is then stale unless both wrote the same |
| RamDisk.LoseWriteOnNew | drivers/drvrfs.c:453-568 | the same reached on a new disk by creating a file, opening it twice and writing through both |
| RamDisk.Disk.Read | drivers/drvrfs.c:472-486 | a read returns the first bytes of the data area of the buffer, which begins with what it holds; for a current buffer up to the file size they are that prefix of the file |
| RamDisk.Disk.Close | drivers/drvrfs.c:488-494 | closing stores the buffer; for a current one no file changes |
| RamDisk.Disk.WriteReopenRead | drivers/drvrfs.c:453-568 | after write, close and open through a current buffer a read of the whole file returns the old contents followed by the bytes written |

## Left out

- The process area with its list of single pages, and moving pages between areas: the area model covers kernel and hardware areas.
- The kernel-wide page totals mo_* and the per-list usage indices: only the counters of an area are modelled.
- Shared pages with a use count above one: nothing in the kernel raises a count above 1, and the branch for them is proved unreachable.
- The boot routine that stamps the area type into descriptors, and the self-checks of boot lists: easy members only.
- Spinlocks, interrupt flags, CR3 loads, TLB refresh and the context switch itself: a locked section is one atomic step.
- Physical-to-virtual offsets: an address stands for its page.
- UserSpace.Space.Reserve: what further calls do after a request whose end wrapped is not modelled, because the region list is then not one the invariants describe.
- UserSpace.Space.GiveBack: the same holds after a delete whose end wrapped or whose start was not aligned.
- SlabCache.Cache.Delete: after a double free the free list is a sequence with the slot twice; the kernel's links do not form a list any more then.
- RamDisk.Disk.Write: a length whose sum with the offset wraps is refused here; in the kernel it passes the test, as Rfs.SpaceIff states, and the copy runs out of the buffer.
- One box manager serves one address space in the model; in the kernel it serves all of them, but no box is shared between two.
- The region counter and the start, heap and stack pointers of an address space, which the code does not maintain on every path.
- The tick counter of a thread that asks for a switch, priorities of idle, and the global thread totals.
- RamDisk.Disk.DeleteFile: the stop of the kernel when no buffer is left for the block map is not modelled, neither here nor in creation.
- Slab counters at the largest machine word, where the kernel refuses to go on: counters are unbounded integers here.
- Block contents are kept as records with the fields the driver reads, and not as raw bytes; the tail of the file header beyond 0x200 is never read.
- Drivers, networking, the loader, hardware set-up, system-call tables, printing and the routines that only display or exercise the others.
- The page pool wrapper of kernel/krlpagempol.c, which frees with an unrounded page count.
