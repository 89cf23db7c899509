# Airix: memory, processes, files, disk and formatting

Airix is a small x86 kernel with the tool that builds its disk image. This project models the parts of it that hold
their state together by invariants across many functions, and proves what they promise over all inputs, all runs and all
reachable states. Code that changes state in place is modelled as classes, arrays and methods with loops, each proved
against a specification function; the theorems are about those functions.

- **Page allocator** (`IntrusiveList`, `Alignment`, `BuddyPartition`, `PageAllocator`, `QuickSort`, `BootMemory`). The
  free lists, header bytes and counters represent a partition of the pages into blocks. Headers inside a block are never
  cleaned up, so that the merge test is sound only because aligned runs are nested or disjoint. Allocation is complete,
  and the free blocks are a function of the set of free pages.
- **Its clients** (`AddressSpace`, `FrameSums`, `FrameOwnership`, `FreeFrames`, `TearDown`, `CopySteps`, `Processes`,
  `ProcessIds`, `ProcessTable`, `UserImages`, `UserTables`, `ElfFile`, `ElfBuilder`, `LoadOrder`, `ProgramOrder`,
  `ElfLoader`, `SlabGeometry`, `SlabPages`, `SlabAllocator`). Each frame taken has one owner and is returned once, on
  every path out of memory as well; clone and exec succeed exactly if identifiers, pages and the file allow it, the page
  counted that the process record may cost.
- **File system, writer and reader** (`Bytes`, `ImageFile`, `DiskFormat`, `Bitmaps`, `DirectoryBlock`, `DirectoryFile`,
  `Volume`, `VolumeFiles`, `FileTree`, `FileWalk`, `BlockGrowth`, `ImageWriter`, `FileWriter`, `FileData`,
  `RootDirectory`, `SpaceLeft`, `SpaceNeeded`, `FileCopier`, `GroupLayout`, `FormatImage`, `Paths`, `KernelReader`,
  `RoundTrip`). The image is a byte sequence with a cursor. What mkfs writes the kernel, which computes every address in
  another way, reads back.
- **State machines of the kernel** (`RequestQueue`, `IdeDriver`, `RoundRobin`, `Scheduler`, `SchedulerRuns`,
  `BlockCache`, `BlockCacheMoves`, `BlockCacheRuns`, `BlockCacheBlocks`, `BlockCacheOrder`, `CachedReader`,
  `SleepQueues`, `BufferCache`). A step is what happens between two points where a process gives up the processor; the
  answers of the drive, the state changes of the processes and whether memory is found are inputs. The theorems are
  about every sequence of steps.
- **Formatted output** (`NumberText`, `Formatting`, `FormatPieces`, `Printf`). Bounded formatting is the front part of
  unbounded formatting, which is what the pieces of a format print, one after the other.

`Units` has the constants that several parts share.

Some predicates come in two forms, a body and a form closed by a key, as in `Cursor`, `CursorBody` and `CursorKey`. The
closed form says that the body holds for every key, and the key is a predicate that is always true: the two mean the
same, but the solver sees the body only where a proof states a key. They keep large invariants out of proofs that only
pass them on.

`dafny verify dfyconfig.toml` checks everything.

## Findings

Where a property that one would expect does not hold of the code, the code is modelled as it is, a lemma names an input
for which it fails, and another says exactly when it holds.

- **The space check admits files that do not fit.** has_enough_space (tools/mkfs.c:995-1061) takes a remainder where the
  number of pointers in a block is meant, which makes it 0, and compares with the free blocks of all groups although
  blocks are only taken from the first. Files then pass the check, and the program exits in the middle of the copy.
  `OneBlockMisleads` and `SecondIndexMisleads` are inputs, `SpaceCheck` is the exact condition, `ExitsIfMisled` says
  that this is when it happens, and `WithQuotient` that the quotient would have counted right.
- **Only the first group is searched.** The conditional expression in alloc_block and alloc_inode_no
  (tools/mkfs.c:82-83, 353-354) takes the whole sum as its condition, so that the number of groups comes out as 1, which
  is `OneGroup`. `AllocBlock` and `AllocInode` succeed exactly if the first group has one free; `OneBlockMisleads` is an
  input with blocks free elsewhere.
- **An empty memory region can hide memory.** get_max_physical_address (mm/pmm.c:113-129) takes the end of the last
  usable region; an empty region that is sorted behind another with the same start hides this one.
  `EmptyRegionHidesMemory` is an input, `LastEndCovers` the exact condition on a sorted map and `EveryOrderShowsEnd` on
  any map, which is what `Initialize` asks of its callers.
- **Rounding up wraps in the last page of memory** (mm/pmm.h:38). A region that starts there makes the loop of
  init_free_pages run from page 0: `SweepsAll` is an input, `AlignPageWraps` and `SweepsRegion` are the exact
  conditions.
- **A process can get the wrong block from the cache.** bio_get and alloc_bio (kernel/bio.c:173-217) do not search again
  after sleeping and may reuse a buffer that somebody waits for. `WrongBlock` is a run that ends so, and
  `ExactIfCareful` says exactly which runs do not; `BelowCapacity` and `SingleProcess` are two kinds of these.
- **A process can sleep for ever** if it finds no memory for a buffer while the cache has none (kernel/bio.c:173-193):
  `SleepsForever` and, exactly, `StuckExactly`.
- **The kernel reads no indirect blocks** (fs/axfs.c:251-274). `LastByteFails` is a file, `ReadPieces` and
  `WriteThenRead` say exactly what is read of a longer file and when a read fails; `HeldInFull` says that the image does
  have all of it.
- **Zeros are put before the sign** (lib/vsnprintf.c:109-117). `ZerosBeforeSign` is a number, and `ZeroPadding` says
  exactly for which numbers and widths the outcome is still one.
- **A refused file stays behind empty.** write_file (tools/mkfs.c:1069-1081) makes the entry before it checks the space.
  `RefusedAfterEntry` is an input, `WriteFile` says exactly when the outcome is `Refused`, and `EachIsHeld` that the
  file is then there and empty.
- **Segments of the kind PT_PHDR are loaded too** (kernel/elf.c:112-113), although such a segment usually lies inside
  one that is loaded anyway, whose pages vmm_map is then asked to map again, and panics. `ProgHeaderInSegment` is an
  input; `RemapsExactly` says exactly when the panic is reached, and `PanicsIfShared` that with enough memory this is
  when two loaded segments, or one and a stack, touch a common page.
- **Creating a process can panic for want of memory.** The record comes from a cache that takes a page when it is
  exhausted, and alloc_slab_page (mm/slab.c:138-148) panics without one. `FirstRecordPanics` is a state, and
  `ProcAlloc`, `ProcClone` and `ProcExec` say exactly when it happens, and that the page stays with the cache if they
  fail later.
- **Inodes beyond the bits of a bitmap are counted.** mkfs accepts any number of inodes for a group, has one block for
  their bitmap, and counts them in a 16-bit word (tools/mkfs.c:536-537, 579-580). `OneInodeTooMany` is an input,
  `InodesCounted` the exact condition.

## Model

| member | source | states |
|---|---|---|
| Alignment.Laminar | mm/pmm.c:166-196 | Aligned power-of-two runs are nested or disjoint; this is why a buddy inside a block is never mistaken for a block. |
| Alignment.SameOrderDisjoint | mm/pmm.c:166-182 | Two aligned runs of one order do not overlap. |
| BuddyPartition.BuddyIsHead | mm/pmm.c:166-182 | In any tiling of the pages by blocks, a block's buddy is the first page of some block no larger than it, so the header that is read is never a stale one. |
| BuddyPartition.AllocateProperties | mm/pmm.c:216-233 | Halving a free block down to the order asked for keeps the tiling without free buddies, makes live exactly the run returned, and takes exactly its pages from the free ones. |
| BuddyPartition.ReleaseProperties | mm/pmm.c:251-279 | Freeing a live block, with all the merges that follow, keeps the tiling without free buddies, touches no other live block, and adds exactly its pages to the free ones. |
| BuddyPartition.CoalesceFreeAt | mm/pmm.c:257-278 | Merging changes no page from free to used or back. |
| BuddyPartition.FreeRunInBlock | mm/pmm.c:216-279 | Every aligned run of free pages lies inside one free block. |
| BuddyPartition.Completeness | mm/pmm.c:235-249 | A free block that is large enough exists if and only if an aligned run of free pages of the order asked for exists: fragmentation never hides a run. |
| BuddyPartition.Canonical | mm/pmm.c:216-279 | Two good states with the same free pages have the same free blocks, with the same orders. |
| BuddyPartition.SameLiveSameState | mm/pmm.c:216-279 | Two good states with the same live blocks are the same state, whatever led to them. |
| BuddyPartition.RoundTrip | mm/pmm.c:235-279 | Freeing what was just allocated restores every block exactly. |
| BuddyPartition.RunsStayGood | mm/pmm.c:216-279 | In every state of every run of allocations and releases the blocks tile the pages and no two free buddies exist below the top order. |
| BuddyPartition.RunsAreCanonical | mm/pmm.c:216-279 | Any two histories that end with the same live blocks end with the same free blocks. |
| PageAllocator.HeaderTest | mm/pmm.c:262-271 | With the headers that are left behind in page data, the test on flags and order holds exactly when the buddy is a whole free block of that order. |
| PageAllocator.MergeRepresents | mm/pmm.c:137-148 | Unlinking the buddy and merging keeps lists, counts and headers in agreement with the blocks. |
| PageAllocator.SplitRepresents | mm/pmm.c:216-233 | Splitting and listing the upper half keeps lists, counts and headers in agreement with the blocks. |
| PageAllocator.Pmm.InsertBlock | mm/pmm.c:150-164 | The block goes on the list of its order, its header is rewritten, and the lists again hold exactly the free blocks. |
| PageAllocator.Pmm.SplitBlock | mm/pmm.c:137-148 | The free buddy leaves its list; the blocks become those with the pair merged. |
| PageAllocator.Pmm.TakeBlock | mm/pmm.c:198-214 | The first block of the list leaves it and is in use. |
| PageAllocator.Pmm.AllocBlock | mm/pmm.c:216-233 | The list, the headers and the counters come to represent the block halved down to the order asked for. |
| PageAllocator.Pmm.AllocPages | mm/pmm.c:235-249 | Result 0 if and only if the order is too large or no aligned free run of that size exists, and then nothing changes; otherwise the run returned was free, was part of a smallest block that suffices, and alone changes hands. |
| PageAllocator.Pmm.FreeBlock | mm/pmm.c:251-279 | The state becomes the release of the block; exactly its run is free in addition; page 0 is ignored. |
| PageAllocator.Pmm.MergeUp | mm/pmm.c:257-278 | The in-place merge loop over lists and headers computes the canonical merge of the block; the insertion behind the loop is out of reach. |
| IntrusiveList.RingInsert | mm/pmm.c:150-164 | Four link writes insert a node into the circular list at one position and change nothing else of it. |
| IntrusiveList.RingRemove | mm/pmm.c:137-148 | Two link writes remove exactly one node from the circular list. |
| IntrusiveList.Links.Remove | mm/slab.c:97-102 | Unlinking a record removes it from the one list that holds it and leaves all other lists as they were. |
| IntrusiveList.Links.InsertAfter | mm/slab.c:88-95 | A record is linked into one list at one position; all other lists are as they were. |
| QuickSort.Swap | lib/qsort.c:4-18 | Exactly two elements are exchanged. |
| QuickSort.InsertSort | lib/qsort.c:20-32 | A short range is sorted and is a permutation of what it was. |
| QuickSort.BelowStep | lib/qsort.c:47-55 | The branch that advances neither index still makes progress: what it puts at the scanned position is equal to the pivot. |
| QuickSort.PartitionRange | lib/qsort.c:43-64 | The range becomes three parts, below, equal to and above the pivot, the middle one not empty, by a permutation. |
| QuickSort.QSort | lib/qsort.c:34-68 | For every comparison that is a total preorder the range is sorted, is a permutation of what it was, nothing else is moved, and the recursion ends. |
| BootMemory.AlignPageWraps | mm/pmm.h:37-38 | Rounding up to a page gives the next page boundary if and only if the address is not behind the start of the last page; behind it the result is 0. |
| BootMemory.SweepsRegion | mm/pmm.c:316-329 | The loop over a usable region visits exactly the whole pages of the region if and only if the region does not start behind the start of the last page. |
| BootMemory.SweepsAll | mm/pmm.c:316-329 | A region at the end of memory that holds no whole page, for which the loop visits every page of memory. |
| BootMemory.GetMaxPhysicalAddress | mm/pmm.c:113-129 | The result is the end of the last usable region of the array. |
| BootMemory.LastEndCovers | mm/pmm.c:113-129 | Of a sorted map without overlaps, that end is behind all usable memory if and only if the last usable region is not empty or no nonempty one starts where it does. |
| BootMemory.EmptyRegionHidesMemory | mm/pmm.c:113-129 | A well-formed sorted map for which the computed end excludes a page of usable memory. |
| BootMemory.EveryOrderShowsEnd | mm/pmm.c:74-81 | Over all orders that sorting may leave: the end is right in each of them if and only if no empty usable region starts where the last nonempty one does. |
| BootMemory.LockRange | mm/pmm.c:281-310 | Exactly the pages of the range become locked in addition. |
| BootMemory.FreeRegion | mm/pmm.c:316-329 | What the loop over a region frees is exactly the unreserved pages it visits, wrap-around included, each of them once. |
| BootMemory.InitFreePages | mm/pmm.c:312-330 | The free pages are then exactly the unreserved whole pages of the usable regions; of other entries nothing is asked. |
| BootMemory.InitPages | mm/pmm.c:332-349 | The same from a sorted map, with boot pages, kernel stack and kernel locked. |
| BootMemory.Initialize | mm/pmm.c:351-357 | For every map in which no empty region hides the end, in any order: the map is sorted to a permutation of itself, exactly the whole unreserved usable pages are free, and page 0 is not, so that 0 can stand for failure. |
| BootMemory.FreeInNumbers | mm/pmm.c:290-330 | Which pages that are, in numbers: whole pages of regions of the types 1 and 3, behind the boot area and the first 64 KiB, and not between 1 MiB and the end of the kernel. |
| BootMemory.OtherTypesNotFree | mm/pmm.c:312-330 | No page with an address in a region of type 2, 4 or 5, apart from those of the types 1 and 3, is free. |
| FrameOwnership.TookAndReturned | mm/pmm.c:235-279 | Taking any frames and giving the same frames back, in any order, restores every block of the allocator. |
| FreeFrames.TookCounts | mm/pmm.c:235-249 | Each single frame taken is one free page less. |
| AddressSpace.MapTranslates | mm/vmm.c:75-79 | Entering a page changes the translation of that page only. |
| AddressSpace.TableTranslates | mm/vmm.c:52-57 | Entering an empty page table changes no translation. |
| AddressSpace.SpaceAgree | mm/vmm.c:5-10 | An address space depends on nothing but the contents of the frames it owns. |
| AddressSpace.MappedApart | mm/vmm.c:96-118 | Two mapped pages never share a frame. |
| AddressSpace.CopiedTranslates | kernel/process.c:228-266 | When all page tables are copied, every user page translates in the copy to equal flags and equal contents. |
| AddressSpace.CopiedSize | kernel/process.c:280-284 | A copy owns as many frames as the original. |
| AddressSpace.KernelHalf | mm/paging.c:85-91 | The entries of the kernel half play no part in what an address space owns. |
| Processes.Machine.VmmMap | mm/vmm.c:96-118 | The panic if and only if the page is mapped already, with nothing changed; otherwise the page translates to the frame afterwards and no other page translates differently, the result being the number of page tables taken; a directory entry that was empty gets all flags asked for, any other keeps its own; -1, with nothing changed, only if the table was missing and no page is free. |
| Processes.Machine.EnsureTable | mm/vmm.c:99-110 | There is a page table for the entry afterwards, with all flags asked for if the entry was empty and with its own otherwise, without changing any translation; or memory is exhausted. |
| Processes.Machine.AllocTable | mm/vmm.c:12-44 | A frame not live before becomes an empty table, or nothing changes and memory is exhausted. |
| Processes.Machine.UnmapTable | mm/vmm.c:59-66 | Clears exactly one directory entry and returns its table. |
| Processes.Machine.ProcFree | kernel/process.c:85-129 | Each frame of the address space is returned once and nothing else is; every other frame keeps its contents; the page count ends at 0, so the leak panic is out of reach. |
| Processes.Machine.FreeEntries | kernel/process.c:97-108 | The inner loop returns exactly the pages of one page table and counts them down. |
| Processes.Machine.CloneTable | kernel/process.c:232-263 | One page table is copied with its pages into frames just taken, the parent's memory is kept; on failure memory is exhausted and what was taken belongs to the clone. |
| Processes.Machine.InitFromProc | kernel/process.c:211-268 | On success the clone is a copy of the parent's user half with the kernel half shared; on failure it is still accounted for, memory is exhausted, and it is smaller than the parent. |
| Processes.Machine.CopyKernelSpace | mm/paging.c:85-91 | The kernel half is shared; what the address space owns and its user half are as they were. |
| ProcessIds.PidMap.AllocPid | kernel/process.c:33-49 | The identifier is the first unused one going round from the generator; -1 exactly if all are in use. |
| ProcessIds.PidMap.FreePid | kernel/process.c:51-54 | Exactly this identifier becomes unused. |
| ProcessTable.Table.ProcAlloc | kernel/process.c:66-83 | The record is taken from its cache first, at the cost of a page if the cache has none left, and the panic if and only if that page is not free. Then a process without memory and with a fresh identifier, or none exactly if all identifiers are in use; the record goes back, the page stays with the cache. |
| ProcessTable.Table.ProcClone | kernel/process.c:270-297 | It panics if and only if the record takes a page and none is free. It succeeds if and only if an identifier is unused and as many pages are free as the parent has, besides the one for the record if its cache has none left; then every user page of the clone has the parent's flags and contents in frames that were free, registers, entry point and stacks are the parent's, and both page counts are exact, so the page-count panic is out of reach. Otherwise identifiers, live objects and blocks are as they were, but for that page. No live memory is changed either way. |
| ProcessTable.Table.SameSize | kernel/process.c:280-284 | The clone takes as many frames as the parent had. |
| ProcessTable.Table.ProcExec | kernel/process.c:191-209 | It succeeds if and only if an identifier is unused, the file is well formed and maps no page twice, and as many pages are free as its image needs with its page tables, besides the one for the record; then the address space holds exactly the image. It panics if and only if the record's page is not free or the loader comes to a page mapped already. Otherwise identifiers, live objects and blocks are as they were, but for the page of the record. |
| ProcessTable.Table.AllocRecord | mm/slab.c:181-203 | A record of the cache of processes, for no page or exactly one; the panic if and only if that one is not free. |
| ProcessTable.Table.FirstRecordPanics | mm/slab.c:138-148 | With an empty cache and no free page the next record is that panic. |
| ProcessTable.Table.ProcFree | kernel/process.c:85-129 | Address space, identifier and record are each given back once and nothing else is; all other live frames, identifiers and objects are as they were. |
| ElfFile.SegmentByte | kernel/elf.c:45-101 | Every address of a loaded segment reads as the byte of the file below its file size and as 0 from there to its memory size, writable by the user. |
| ElfLoader.LoadSegment | kernel/elf.c:45-101 | It ends as the order of its attempts says: the pages of the segment are added, or the header fails its checks or memory is short, or a page is mapped already. |
| ElfLoader.CopiedBytes | kernel/elf.c:71-98 | What one round of the page loop copies, at which offset and of which length, is what the page should hold. |
| ElfLoader.LoadTable | kernel/elf.c:103-121 | For every table, overlapping segments included: it ends as the attempts of all headers in their order say, and if it succeeds the image has exactly their segments. |
| LoadOrder.LoadsExactly | kernel/elf.c:64-98 | A sequence of attempts maps all its pages if and only if no header fails, no page comes twice, and as many pages are free as they need with their tables. |
| LoadOrder.RemapsExactly | mm/vmm.c:113-114 | The panic is reached if and only if there is an attempt at a page mapped before, no header in front of it fails, and a frame is left for it. |
| ProgramOrder.LoadedExactly | kernel/process.c:168-189 | A program is loaded if and only if it is well formed, no page is to be mapped twice by segments and stacks, and memory suffices. |
| ProgramOrder.PanicsIfShared | mm/vmm.c:113-114 | With enough memory, loading a well-formed program panics if and only if two of its loaded segments, PT_PHDR among them, or one and a stack, touch a common page. |
| ProgramOrder.TableOnce | kernel/elf.c:103-121 | No page of the table is tried twice if and only if no two loaded segments touch a common page. |
| ProgramOrder.ProgHeaderInSegment | kernel/elf.c:112-113 | Two acceptable headers, a segment and a PT_PHDR inside its only page, that end in the panic with four pages free. |
| ElfLoader.LoadProgram | kernel/elf.c:123-152 | The image of the segments and the entry point, or the outcome, refused or panic, that the file and the free pages determine. |
| ElfLoader.AllocStacks | kernel/process.c:131-166 | Kernel and user stack pages are added to the image, unless memory is short of them or a segment has taken their place. |
| ElfLoader.InitFromElf | kernel/process.c:168-189 | The outcome is a function of the free pages and the file; on success the address space holds exactly the program with its stacks and shares the kernel half; refused, it is accounted for. |
| ElfLoader.UserReachesProgram | mm/vmm.c:96-118 | The user bit is set in both levels of the tables exactly for the pages of the image with a user flag: segments and user stack, not the kernel stack. |
| ElfLoader.UserWritesProgram | mm/vmm.c:96-118 | Both levels of the tables let the user write exactly the pages of the image whose flags are user and writable. |
| ElfLoader.SegmentIsUsers | kernel/elf.c:72-119 | Every address of a loaded segment is the user's to write, through both levels. |
| ElfLoader.StackAccess | kernel/process.c:125-166 | The pages below the tops of the two stacks, in numbers: the user may write that of the user stack and does not reach that of the kernel stack. |
| UserTables.UserWritesImage | mm/vmm.c:96-118 | The same for any image that a directory holds. |
| UserTables.CopiedReach | kernel/process.c:223-264 | In a clone the user reaches, and may write, exactly what the user may in the parent. |
| ElfBuilder.FileHeaderReadsBack | kernel/elf.c:15-31 | A file header written field by field in the order of its structure is read as it was written, and accepted exactly by its first bytes, its kind and where its table lies. |
| ElfBuilder.FullHeaderReadsBack | kernel/elf.c:33-43 | Wherever a program header written field by field lies in a file, its fields are read as they were written. |
| ElfBuilder.HeadersEntry | kernel/elf.c:139-148 | The headers are one entry size apart, whatever this size is. |
| ElfBuilder.Build | kernel/elf.c:15-43 | For any entry point and segments that fit into words there is such a file: header, table and contents one behind the other. |
| ElfBuilder.BuiltReadsBack | kernel/elf.c:123-148 | From a file put together from segments the loader gets the entry point and exactly their headers. |
| ElfBuilder.BuiltPages | kernel/elf.c:45-121 | The pages of such a program are exactly those where a loaded segment has a byte, and the two stack pages. |
| ElfBuilder.BuiltLoads | kernel/elf.c:45-152 | Such a file, with its segments below the kernel, is loaded if and only if each segment has memory for its content, no page has bytes of two of them or of one and a stack, and memory suffices. |
| ElfBuilder.BuiltByte | kernel/elf.c:62-119 | At each address of a segment there is then its content, and zero behind it. |
| ElfLoader.BuiltMemory | kernel/elf.c:62-119 | The same in memory: through the page tables the process finds that byte there and may write it. |
| ProcessTable.Table.BuiltRuns | kernel/process.c:191-209 | A process made from such a file starts at the entry point asked for, with the bytes of its segments in memory. |
| UserTables.TakenWeight | kernel/process.c:168-189 | What was taken since the beginning is a directory, one frame for each page of the image and one for each page table that these need. |
| SlabGeometry.LayoutFits | mm/slab.c:119-136 | Header, stack of free objects and objects fit into a page, with at least one object, for every size that leaves room for one. |
| SlabGeometry.LimitExact | mm/slab.c:119-136 | No more objects would fit, each with its pointer, and the last one ends where the page ends. |
| SlabGeometry.SlotInPage | mm/slab.c:119-136 | Every object lies in its page behind header and stack, and masking its address finds the header. |
| SlabGeometry.SlotsApart | mm/slab.c:119-136 | Objects of a page do not overlap. |
| SlabGeometry.SlotAligned | mm/slab.c:237-258 | Objects are aligned if their size and the page are multiples of the alignment. |
| SlabPages.LiveObjectsApart | mm/slab.c:150-172 | Live objects, of all caches, do not overlap and stay clear of the page headers. |
| SlabPages.RoomToPush | mm/slab.c:205-225 | Freeing a live object never overflows the stack of free objects. |
| SlabPages.Slabs.AllocFromSlab | mm/slab.c:150-172 | The object was not live, is in this page, and is the only one to become live; the page moves to the list its count calls for. |
| SlabPages.Slabs.AllocAvailable | mm/slab.c:181-203 | Without a new page: an object of the cache, or 0 exactly if all its pages are full; from a page that is in use in part, if the cache has one. |
| SlabPages.Slabs.FreeObject | mm/slab.c:205-225 | Exactly this object stops being live; the page moves to the list its count calls for. |
| SlabPages.Slabs.InitSlabPage | mm/slab.c:119-148 | A page of unused objects, first on the cache's free list; no object becomes live. |
| SlabAllocator.Allocator.AllocObject | mm/slab.c:181-203 | 0 if and only if the cache is full and no page is free, with nothing changed; otherwise a single object of the cache becomes live, and a page is taken only if the cache was full. |
| SlabAllocator.Allocator.Kmalloc | mm/slab.c:285-305 | Up to 1024 bytes: an object of the smallest cache that suffices, and of no other; 0 only without a free page. |
| SlabAllocator.Allocator.Kfree | mm/slab.c:307-311 | The object goes back to the cache it came from, found through its page; no other object changes. |
| SlabAllocator.Allocator.DestroyList | mm/slab.c:104-117 | The list becomes empty and each of its pages is returned once. |
| SlabAllocator.Allocator.DestroyPages | mm/slab.c:260-273 | Each page of the cache, on whichever list, is returned once and no other page is; the objects of the other caches stay live as they were. |
| Scheduler.Processor.SchedAdd | kernel/scheduler.c:129-135 | The process is listed in front of all others, which stay in order. |
| Scheduler.Processor.Search | kernel/scheduler.c:180-198 | The scan from behind the current process over the list that it changes ends at the first ready process, having freed the dead ones it passed. |
| Scheduler.Processor.Dispatch | kernel/scheduler.c:180-201 | One round on the links is one turn of the scanning order: the current process becomes the first ready one, and exactly the dead ones before it are freed. |
| Scheduler.Processor.RunTask | kernel/scheduler.c:150-162 | After the switch back a child asked for enters in front exactly if the clone succeeded; the request is cleared. |
| RoundRobin.OrderMoves | kernel/scheduler.c:180-198 | In scanning order a round moves the processes passed to the end and drops the dead ones, whether or not it goes round the sentinel. |
| RoundRobin.ScanConserves | kernel/scheduler.c:180-198 | A round frees dead processes only, each once, keeps every other one listed once, and ends at a ready one. |
| RoundRobin.LastRunSurvives | kernel/scheduler.c:184-201 | The process that ran last, whose address space is still in use, is not freed by the scan after it. |
| SchedulerRuns.RunGoesOn | kernel/scheduler.c:176-223 | As long as the kernel task is ready every scan ends, so a run can always be continued. |
| SchedulerRuns.StillWaits | kernel/scheduler.c:176-223 | In every round in which it is not met, a ready or dead process comes nearer to its turn, whatever is forked meanwhile. |
| SchedulerRuns.NoStarvation | kernel/scheduler.c:176-223 | In every run a process that stays ready runs within twice as many rounds as there were processes at the beginning, although children keep entering at the front. |
| SchedulerRuns.DeadIsFreed | kernel/scheduler.c:186-193 | In every run a dead process is freed within as many rounds. |
| SchedulerRuns.Fair | kernel/scheduler.c:176-223 | Between two turns of a process every other process that stays ready has a turn. |
| RequestQueue.RunLawful | kernel/ide.c:179-232 | After any submissions and any status bytes: requests wait in order of arrival, exactly the head has been started, and all those called back are settled. |
| RequestQueue.PollByStatus | kernel/ide.c:197-232 | What one look does, by the two low bits of the status: 1 alone nothing, 0 completes the head, and 2, with 1 or without, tries it once more and then completes it with an error. |
| RequestQueue.EveryRequest | kernel/ide.c:197-232 | For every request of every run: started at most twice, in order of arrival; called back at most once and only after a start, with an error if and only if there were two attempts and both failed; only the head of those waiting has been started. |
| RequestQueue.AllCalledBack | kernel/ide.c:197-232 | After two ends of operation for each waiting request, one less if the head is being retried, all of them have been called back. |
| IdeDriver.Ide.DmaIoSectors | kernel/ide.c:365-387 | On the linked records: the request joins the end of its bus's queue, is started at once exactly if the queue was empty, and the other bus is not affected. |
| IdeDriver.Ide.CompleteIoOperation | kernel/ide.c:179-195 | The head is unlinked and free again, the next is started, and the head's callback runs with the error given. |
| IdeDriver.Ide.CheckIfIoComplete | kernel/ide.c:197-232 | One look at the status is one step of the queue: retry, completion or nothing. |
| IdeDriver.Ide.TaskFunction | kernel/ide.c:234-240 | Both buses make one step each, independently. |
| BlockCacheRuns.StepSound | kernel/bio.c:120-324 | Every step of every process and of the drive keeps the protocol: a held buffer has exactly one holder, queues hold exactly the processes asleep in them, a nonempty queue has a holder or a woken process about to look again, a reader is first in its buffer's queue, and an updated buffer has the device's contents. |
| BlockCacheRuns.NeverStuck | kernel/bio.c:120-193 | While a process sleeps and there is a buffer, some process will move, and one that has to do with the buffer if the sleeper waits for one. |
| BlockCacheRuns.StuckExactly | kernel/bio.c:173-193 | While a process sleeps, another will move if and only if there is a buffer or somebody is about to look again. |
| BlockCacheRuns.SleepsForever | kernel/bio.c:173-193 | The only process, which finds no memory for the first buffer: after it has gone to sleep no event is possible. |
| BlockCacheMoves.WakesReader | kernel/bio.c:244-261 | The first in the queue of a buffer whose read ends is the process that asked for the read. |
| BlockCacheMoves.WokenWaits | kernel/bio.c:153-171 | Who is woken by a release was waiting for that buffer or for any, is not the holder, and is not a reader. |
| BlockCacheMoves.ReleaseAnyNotLost | kernel/bio.c:318-324 | A release loses no wake-up for those that wait for any buffer. |
| BlockCacheBlocks.StaysExact | kernel/bio.c:195-217 | A step keeps one buffer a block and every user at the block it asked for, if and only if an allocation in it is careful: it takes no buffer somebody waits for, and brings in no block that came in while the process slept. |
| BlockCacheBlocks.ExactIfCareful | kernel/bio.c:195-217 | All along a run the cache is exact if and only if every allocation in it is careful. |
| BlockCacheBlocks.ReadsDevice | kernel/bio.c:263-282 | After any run of careful allocations a process that holds an updated buffer has in it the device's contents of the block it asked for, with the iterator at its sector. |
| BlockCacheBlocks.BelowCapacity | kernel/bio.c:173-193 | Below capacity and with memory every run is careful. |
| BlockCacheBlocks.SingleProcess | kernel/bio.c:173-193 | Every run of a single process is careful, at capacity and without memory as well. |
| BlockCacheOrder.RecentIsLastUse | kernel/bio.c:173-217 | In every run the list of buffers is the order of their last use, the latest first. |
| BlockCacheOrder.LeastRecentlyUsed | kernel/bio.c:82-96 | So the buffer given to another block is, of those that nobody holds, the least recently used one. |
| BlockCacheOrder.WokenInOrder | kernel/bio.c:120-171 | In every run those who wait for one buffer, and those who wait for any, are woken in the order in which they came. |
| BlockCacheBlocks.WrongBlock | kernel/bio.c:195-217 | A possible run of three processes after which one holds a buffer of another block than it asked for, with the iterator outside the buffer. |
| CachedReader.CopiesDisk | kernel/bio.c:224-236 | At any moment of any run of careful allocations, what a process copies from a valid buffer it holds, at the iterator and an offset, is what the disk has at that sector and offset. |
| CachedReader.ReadsFile | fs/axfs.c:239-277 | Whatever the other processes do meanwhile, the bytes that the loop of read_file copies from the cache, each block at its own moment, are the file's, as far as its direct blocks go. |
| SleepQueues.Sleepers.WaitLast | kernel/bio.c:120-140 | On the chain through the process records: the process goes behind all others that wait there; no other chain changes. |
| SleepQueues.Sleepers.WaitFirst | kernel/bio.c:142-151 | The reader goes before all others. |
| SleepQueues.Sleepers.WakeFirst | kernel/bio.c:153-171 | The first process leaves its chain and is awake; no other chain changes. |
| BufferCache.Buffers.FindBio | kernel/bio.c:67-80 | The search along the links finds the most recent buffer of the block, or none. |
| BufferCache.Buffers.FindUnusedBio | kernel/bio.c:82-95 | The search against the links finds the least recent buffer that nobody holds, or none. |
| BufferCache.Buffers.BioGet | kernel/bio.c:195-217 | On lists, chains and records: one call, up to where it returns or sleeps, is one step of the protocol and keeps it. |
| BufferCache.Buffers.BioGetAgain | kernel/bio.c:173-217 | After waking, the loops of alloc_bio and bio_get go on as one step of the protocol. |
| BufferCache.Buffers.BioRead | kernel/bio.c:263-282 | The call returns at once exactly if the buffer is valid; otherwise the process sleeps first in its queue. |
| BufferCache.Buffers.BioReadEnds | kernel/bio.c:278-282 | If the read succeeded the buffer has the device's contents. |
| BufferCache.Buffers.IdeReadComplete | kernel/bio.c:244-261 | The process woken is the one whose read it was. |
| BufferCache.Buffers.BioRelease | kernel/bio.c:318-324 | The buffer is free and at most one process is woken, as the protocol says. |
| BufferCache.Buffers.WakeUpSleepProcess | kernel/bio.c:153-171 | The first waiter for the buffer is woken, else the first that waits for any buffer, else nobody. |
| Bitmaps.FindClear | tools/mkfs.c:60-74 | The first clear bit of a bitmap is found, or there is none. |
| DirectoryBlock.Inserted | tools/mkfs.c:177-208 | Writing a record over the padding leaves records that tile the block, the old ones as they were with the new one behind them. |
| DirectoryBlock.FindAfterInsert | tools/mkfs.c:240-271 | A new name resolves to its inode; every other name resolves as before. |
| DirectoryFile.WriteEntryHere | tools/mkfs.c:177-208 | Only bytes from the padding on are changed, to those of the record and of the padding behind it, if any fits. |
| DirectoryFile.WriteEntryToBlock | tools/mkfs.c:210-238 | It succeeds if and only if the padding has room for the record; otherwise nothing changes. |
| DirectoryFile.GetEntryFromBlock | tools/mkfs.c:240-271 | The entry found is the first record of that name, or there is none. |
| DirectoryFile.BlockFindIno | fs/axfs.c:129-159 | The kernel's search over the buffer finds the same inode as mkfs's, and ends. |
| ImageWriter.Mkfs.AllocBlock | tools/mkfs.c:351-368 | With the number of groups computed from the super block as the code does it succeeds if and only if the first group has a free block, whatever the others have; the block is the first unused one. |
| ImageWriter.Mkfs.AllocInode | tools/mkfs.c:78-95 | The same for inodes. |
| ImageWriter.OneGroup | tools/mkfs.c:82-83 | The number of groups searched, as the conditional computes it from the counts of the super block, is 1 whatever the counts are, and 0 for none. |
| ImageWriter.Mkfs.UpdateBlockBitmap | tools/mkfs.c:382-402 | Exactly one bit is set and one free block less is counted, so that counts and bits keep agreeing. |
| ImageWriter.Mkfs.WriteInode | tools/mkfs.c:135-148 | The inode is stored, its bit set and one free inode less counted; nothing else changes. |
| ImageWriter.Mkfs.UpdateInode | tools/mkfs.c:112-133 | The inode reads back as written; nothing outside its 128 bytes changes. |
| ImageWriter.Mkfs.UpdateSuper | tools/mkfs.c:404-413 | The super block reads back as written; nothing else changes. |
| FileWriter.WriteBlocks | tools/mkfs.c:920-940 | It succeeds if and only if there are as many free blocks as it needs; the blocks were free, are distinct, and hold the file's next chunks in order. |
| FileWriter.WriteIndirect | tools/mkfs.c:942-993 | For one, two and three levels: it succeeds if and only if there are as many free blocks as data and index blocks together; then the tree of blocks just taken, all distinct, holds the next chunks in order. |
| FileWriter.WriteSubtrees | tools/mkfs.c:957-993 | The loop over the subtrees, with the exact number of blocks it takes. |
| FileData.WriteData | tools/mkfs.c:1082-1102 | All of the file's data are behind the pointers, in order, in blocks that were free; it succeeds if and only if the free blocks suffice, index blocks included. |
| FileTree.WalkFinds | tools/mkfs.c:942-993 | A walk over the stored index blocks finds exactly the data blocks of the tree, in order. |
| FileTree.DistinctLeaves | tools/mkfs.c:907-993 | A tree with no block twice has distinct data blocks. |
| FileWalk.InodeWalk | tools/mkfs.c:1063-1113 | The in-order walk of the direct, single, double and triple pointers of a file's inode yields the file's data blocks. |
| FileWalk.FileContent | tools/mkfs.c:1063-1113 | For a file of any size, the bytes behind the pointers of its inode, cut to its size, are its data. |
| FileWalk.VolumeContent | tools/mkfs.c:1063-1113 | Every file of a volume, looked up by name, has its data behind its inode. |
| RootDirectory.WriteEntryToDir | tools/mkfs.c:824-861 | The entry is made if and only if there is a free inode and a directory block has room or one more can be had; then exactly that record is new, and the space left is known. |
| RootDirectory.ExtendDir | tools/mkfs.c:710-729 | A block that was free is added to the directory, as padding, with a pointer in its inode; it fails exactly without a free block. |
| FileCopier.InsertedNames | tools/mkfs.c:697-733 | A fresh name inserted in any block resolves to its inode, and all others resolve as before. |
| FileCopier.GetEntryFromDir | tools/mkfs.c:650-695 | A name is found if and only if a record of the directory has it. |
| FileCopier.FileBlocksAre | tools/mkfs.c:1082-1102 | How many blocks a file really takes, index blocks included. |
| SpaceNeeded.RequiredBlocks | tools/mkfs.c:995-1058 | The loops over index blocks, with the remainder as the number of pointers, come to the data blocks and three more, or none more for no block or 21. |
| SpaceNeeded.WithQuotient | tools/mkfs.c:995-1058 | With the quotient, the same loops would come to exactly what a file takes, and one block more for fewer than 21. |
| FileCopier.SpaceCheck | tools/mkfs.c:995-1061 | The check admits no file that does not fit, whatever is free in the first group, if and only if the file's size and the free blocks of the other groups are as listed. |
| FileCopier.OneBlockMisleads | tools/mkfs.c:995-1061 | A file of one block passes the check with the first group full and four blocks free elsewhere. |
| FileCopier.SecondIndexMisleads | tools/mkfs.c:995-1061 | A file of 534 blocks passes the check with 537 free blocks in a single group, and does not fit. |
| FileCopier.ExitsIfMisled | tools/mkfs.c:1078-1113 | Once the entry is made the program exits if and only if the check admitted a file that does not fit. |
| FileCopier.RefusedAfterEntry | tools/mkfs.c:1069-1081 | A file of one byte, with an inode and room in the directory but no block, is refused after its entry was made. |
| FileCopier.FillFile | tools/mkfs.c:1082-1113 | It succeeds if and only if the first group has as many free blocks as the file takes; then the inode's pointers lead to the data, in blocks that were free, and nothing else in use is touched. |
| FileCopier.VolumeMore | tools/mkfs.c:1063-1113 | A new file leaves all others as they were, and the volume is one with that file in addition. |
| FileCopier.WriteFile | tools/mkfs.c:1063-1113 | The outcome is a function of the space left: taken name, no inode or room, refused, exit, or written; written or refused, the volume has the file, full or empty, and all others as before. |
| FormatImage.MakeMetadata | tools/mkfs.c:444-469 | Descriptor and bitmap of a group agree: as many bits are set as blocks are used. |
| FormatImage.MakeGroups | tools/mkfs.c:483-584 | The groups can be made if and only if each is larger than its own metadata; the counts add up to those of the super block, which has the inodes of all groups, the blocks, and the inodes of a group. |
| FormatImage.WriteRootDir | tools/mkfs.c:415-442 | A root directory with its two entries, in a block that was free; it fails exactly without one. |
| FormatImage.MakeFs | tools/mkfs.c:586-642 | For every plan: it succeeds if and only if every group is larger than its metadata; then the image is a sound volume without files, with exactly the space computed from the plan, and its super block has the counts of the plan, for which one group is searched. |
| GroupLayout.InodesCounted | tools/mkfs.c:537 | The 16-bit count of a new group is that of the clear bits of its inode bitmap if and only if there are at most 8192 inodes, or the part of a larger number that is left is 8192. |
| GroupLayout.OneInodeTooMany | tools/mkfs.c:537 | With 8193 inodes in a group it is not. |
| FormatImage.SoundConserves | tools/mkfs.c:444-469 | In a sound image the free counts of every group equal the clear bits of its bitmaps, and the super block's their sums. |
| FormatImage.SoundSuper | tools/mkfs.c:610-613 | In a sound image, after any copies, the super block counts the inodes and blocks of all groups. |
| GroupLayout.InodesFit | tools/mkfs.c:611 | The inodes of all groups fit into the word that counts them. |
| GroupLayout.GroupsTile | tools/mkfs.c:615-637 | The groups lie one behind the other from block 1 on and have all blocks of the image up to its end. |
| GroupLayout.GroupInside | tools/mkfs.c:483-584 | Inside a group bitmaps, inode table and data lie right behind each other, and the tables take no more blocks than they fill. |
| FormatImage.CopyFile | tools/mkfs.c:1115-1151 | Copying keeps the image sound; outcome and space left are functions of the space before; other files are as before. |
| RoundTrip.CopyAll | tools/mkfs.c:1153-1183 | For every sequence of copies, under new, taken or repeated names: the result of each, as computed from the space left by those before it; after one that is refused or whose name is taken the next one follows; unless one ends the program, the image is sound and holds exactly the files computed. |
| RoundTrip.EachIsHeld | tools/mkfs.c:1153-1183 | A copy that was written is there in the end with its data, whatever was copied after it; one that was refused is there and empty. |
| RoundTrip.NothingOverwritten | tools/mkfs.c:882-889 | No copy changes a file that was there before. |
| RoundTrip.NothingElseHeld | tools/mkfs.c:1153-1183 | What is there in the end was there before or was written or refused under its name. |
| RoundTrip.WrittenExactly | tools/mkfs.c:1153-1183 | All copies are written if and only if the names are new and distinct and each file fits into what those before it left. |
| RoundTrip.AllHeld | tools/mkfs.c:1153-1183 | If they do fit into a new image, it holds each with its data. |
| RoundTrip.HeldInFull | tools/mkfs.c:1153-1183 | Each file of the image, of any size, is held in full. |
| DiskFormat.BioIsLinear | fs/axfs.c:108-122 | Base sector, iterator and offset in a buffer amount to a linear offset of the disk. |
| Bytes.WordsAreLittleEndian | fs/axfs.h:17-51 | A word is the number of its bytes, the lowest first. |
| DiskFormat.SuperLayout | fs/axfs.h:17-24 | Every field of the super block, at its place. |
| DiskFormat.DescLayout | fs/axfs.h:26-33 | Every field of a group descriptor, at its place. |
| DiskFormat.InodeLayout | fs/axfs.h:39-51 | Mode, size and each block pointer of an inode, at their places. |
| DirectoryBlock.HeaderLayout | fs/axfs.h:60-67 | Every field of a directory entry, at its place. |
| DiskFormat.InodeLinear | fs/axfs.c:69-83 | The kernel's block, sector and offset of an inode are where mkfs's linear offset puts it, and no inode straddles sectors. |
| DiskFormat.SectorIsLinear | fs/axfs.c:49-67 | The same for anything inside one sector of a block. |
| KernelReader.InodeFound | fs/axfs.c:85-93 | For every inode number of the first group the kernel reads the inode that mkfs stored. |
| KernelReader.DirFindIno | fs/axfs.c:161-180 | The kernel's search of the root directory finds what mkfs's record lists say. |
| KernelReader.Namex | fs/axfs.c:182-221 | For every path: the result is the root's inode if and only if the path has only `.` and `..` up to its end or to an empty component, a file's inode if after these its name comes, and then the end or an empty component, and 0 otherwise. |
| KernelReader.FoundKinds | fs/axfs.c:182-221 | Whatever a name leads to is the root or a regular file. |
| KernelReader.ReadFile | fs/axfs.c:239-277 | For every position and size: the file's bytes from there, as far as file and direct blocks go, or failure exactly when the position is behind the direct blocks but in the file. |
| KernelReader.LastByteFails | fs/axfs.c:251-274 | A file of 21505 bytes: reading its last byte fails, and reading all of it gives one byte less. |
| KernelReader.OpenFile.AxRead | fs/axfs.c:308-321 | The same at the file's position, which moves on by what was read. |
| KernelReader.AxOpen | fs/axfs.c:223-300 | A path opens if and only if it begins with a slash and its components are some of `.` and `..`, then the name of a file, then the end or an empty component; it is this file's inode that is opened. |
| Paths.SplitJoins | fs/axfs.c:101-106 | The components of a path have no slashes, and joined by slashes they are the path. |
| Paths.JoinSplits | fs/axfs.c:101-106 | Components without slashes are those of the path they are joined to, so there is no other way to split it. |
| Paths.OpensOne | fs/axfs.c:182-221 | A path leads to no more than one file. |
| Paths.NameOpens | fs/axfs.c:182-221 | A slash and a name lead to the file of that name and to no other. |
| Paths.NothingInFile | fs/axfs.c:190-198 | A file's name, a slash and a further component lead nowhere. |
| KernelReader.ReadPieces | fs/axfs.c:308-321 | For every file and every sequence of read sizes: what was read, put together, is the file's bytes up to the sum of the sizes, the file's end and the direct blocks; a read fails exactly if one begins behind the direct blocks with more of the file to come. |
| KernelReader.OpenAndRead | fs/axfs.c:279-321 | For every path: it opens if and only if it leads to a file of the volume, and this file is read as in ReadPieces. |
| RoundTrip.WriteThenRead | tools/mkfs.c:1063-1183 | Writer against reader, from plan and files to bytes read: all is done if and only if the groups are roomy and no copy ends the program, by arithmetic; then any path opens if and only if it leads to a name under which a file was written or refused, and read in any pieces it gives the bytes that were copied, as far as the direct blocks go. |
| NumberText.ReadsBack | lib/vsnprintf.c:16-44 | Reading the digits gives the number back, in every base from 2 to 16. |
| NumberText.Canonical | lib/vsnprintf.c:16-44 | Digits of the base only, and no zero in front of others. |
| NumberText.WordDigits | lib/vsnprintf.c:18-20 | 32 digits always suffice. |
| NumberText.SignedReadsBack | lib/vsnprintf.c:46-66 | Reading a signed decimal gives the number back, the least one included. |
| NumberText.Reverse | lib/vsnprintf.c:5-14 | The characters are reversed in place and no others change. |
| NumberText.UtoaS | lib/vsnprintf.c:16-44 | The digits and a NUL exactly if base and room permit; otherwise 0 with nothing written. |
| Printf.ItoaS | lib/vsnprintf.c:46-66 | The signed text and a NUL exactly if there is room. |
| Printf.CopyWithPadding | lib/vsnprintf.c:97-126 | As much of the padded text as fits, for padding on either side, and nothing else changes. |
| Printf.SnprintInt | lib/vsnprintf.c:128-139 | The local buffer of 33 characters never cuts a number; as much of its padded text as fits is written. |
| Printf.Convert | lib/vsnprintf.c:212-257 | One conversion into limited room gives the front part of what it gives into any room. |
| Printf.Vsnprintf | lib/vsnprintf.c:174-266 | For every format, arguments and size: the first size - 1 characters of the full text, or all of it, then a NUL; that length is returned, nothing is written beyond the size, and nothing at all for size 0. |
| Formatting.DecimalReadsBack | lib/vsnprintf.c:97-139 | A decimal number aligned to the right reads back as itself for every width. |
| FormatPieces.DigitNames | lib/vsnprintf.c:24-33 | The sixteen characters that stand for digits. |
| FormatPieces.WrittenOnce | lib/vsnprintf.c:16-44 | A number is written in one way only, so that the digits are determined by number and base. |
| FormatPieces.PrintsString | lib/vsnprintf.c:97-119 | A string is printed as it is at the end that the layout says, with nothing except padding up to the width beside it. |
| FormatPieces.PrintsChar | lib/vsnprintf.c:214-217 | For c one character is printed, the lowest byte of the argument. |
| FormatPieces.PrintsUnsigned | lib/vsnprintf.c:137-149 | For u the number in base 10, placed and padded in the same way, for every value, width and layout. |
| FormatPieces.PrintsHex | lib/vsnprintf.c:231-235 | For x the number in base 16. |
| FormatPieces.PrintsPointer | lib/vsnprintf.c:151-164 | For p the number in base 16 behind 0x. |
| FormatPieces.PrintsSigned | lib/vsnprintf.c:122-135 | For d the number in base 10, behind a minus if it is negative. |
| FormatPieces.NumberReadsBack | lib/vsnprintf.c:97-119 | Without the padding on its side a number reads back in its base, on the left as on the right, and with zeros as padding too. |
| FormatPieces.LayoutRead | lib/vsnprintf.c:189-210 | Flags and a width are read as the layout they say: left with a dash, else padded with the last flag, as wide as the digits' number modulo the word, up to the character behind them. |
| FormatPieces.EveryLayout | lib/vsnprintf.c:189-210 | Every layout there is can be asked for by a flag and its width in decimal. |
| FormatPieces.OnlyLayouts | lib/vsnprintf.c:189-210 | Whatever the format, no other layout is read. |
| FormatPieces.FormatPrints | lib/vsnprintf.c:180-254 | A format put together from characters, percent signs, conversions and unknown letters prints the texts of these pieces one after the other, each conversion with its own argument. |
| FormatPieces.NothingBehind | lib/vsnprintf.c:180-254 | A percent sign with a layout at the end of a format prints nothing. |
| Formatting.ZeroPadding | lib/vsnprintf.c:97-126 | Padded with zeros, the text is a number if and only if the value is not negative or fills the width; then it reads back as the value. |
| Formatting.ZerosBeforeSign | lib/vsnprintf.c:97-126 | The format %04d for -7 gives 00-7, which is no number. |

## Left out

What is modelled in another form than the code has it:

- Words of memory as bits: page tables, page headers and slab headers are records; the flag bits are fields. Bytes
  matter for the contents of pages, for the ELF file and for the disk image, and these are bytes.
- Addresses of kernel data: list nodes and pages are numbers, and the two arrays that the boot allocator places in front
  (mm/pmm.c:60-110) are given with their sizes; how far boot data and kernel extend are parameters.
- Panics, in three ways: the method is proved never to get there, as the leak panic of proc_free and the page-count
  panic of proc_clone; or the panic is an outcome, as `remap` of `VmmMap`, `Remapped` of the loader, `Panics` of the
  process table, and the result 0 of `AllocObject` and `Kmalloc`, where alloc_slab_page panics; or the method asks for
  what rules it out, as free_object does for the owner of an object. Nothing is said of the state behind the loader's
  panic.
- Ports, interrupts, CR3, TSS and context switches: device status is an input, and a switch is the end of a step.

What callers have to keep to:

- Usable memory regions do not overlap, do not start in the last page and do not end above 4 GiB (mm/pmm.c:312-330).
  Blocks, objects and pages are freed once, with the order and to the cache they came from.
- Program headers lie in the file, do not wrap, and stay below the kernel (kernel/elf.c:45-121).
- Slab sizes leave room for an object with its pointer in a page; init_slab_page with another size is not modelled.
- MakeFs: images are below 4 GiB, as mkfs computes with 32-bit words, and have at most 8192 inodes in a group, because
  with more the counts do not agree from the start: `InodesCounted`.
- MakeGroups: the same.
- Names that are copied have 1 to 255 bytes and are single components (tools/mkfs.c:863-905 stops at the first separator
  of a nested path). Files are below 4 GiB.
- For the theorems about the reader the image is a whole number of 4096-byte buffers, because bio reads nothing else.
- A process uses one buffer of the cache at a time, as all of fs/axfs.c does.

What is not modelled:

- WriteEntryToDir: directory blocks behind the 21 direct ones (tools/mkfs.c:735-822), which the kernel does not search
  either; when the direct ones are full the outcome is `NoRoom`, and nothing is said of what follows.
- CopyAll: items come as names and data; the parsing of the argument, source files that cannot be opened and
  destinations that are no path are left out, as cpfs only skips those.
- Copying to subdirectories: the loop over the components of a path does not get past the first separator
  (tools/mkfs.c:872-901).
- bio_write and its completion (kernel/bio.c:284-316), so no buffer is dirty; bio_advance_iter, which nothing calls.
- Errors of the device while the kernel reads a file: the cache models them, `CachedReader` is about valid buffers, and
  the reader of `KernelReader` takes what the disk has.
- Detection of drives and the check of sector ranges (kernel/ide.c:250-363, 389-407), and the loops that wait for one
  request (kernel/ide.c:427-464).
- alloc_kmem_cache_object and slab_create_kmem_cache (mm/slab.c:227-258): the caches are given with their sizes. That an
  object of such a size is aligned is `SlotAligned`.
- The return values of fork. The registers that proc_clone copies are one number (kernel/process.c:288).
- The kernel task's own directory and stack (kernel/ktask.c:35-48), which its page count leaves out.
- TLB and boot paging (mm/paging.c:7-83), fs/fs.c, kernel/syscall.c, console, keyboard, printk, PCI, interrupt set-up,
  boot loader and assembly, which would add easy members only.
- Vsnprintf: a size so large that the end of the buffer wraps around the address space, arguments that do not suit the
  format, and formats with a NUL inside are not considered.
