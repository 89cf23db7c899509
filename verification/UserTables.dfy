/**
 The page tables of a program under construction: how many frames it has, and which of its pages the user
 may reach.
 */
module UserTables {
  import opened Units
  import opened BuddyPartition
  import opened AddressSpace
  import opened FrameOwnership
  import opened FreeFrames
  import opened UserImages

  const KERNEL_BASE: nat := USER_PAGES * PAGE_SIZE
  const KERNEL_STACK: nat := KERNEL_BASE - 16 * PAGE_SIZE
  const USER_STACK: nat := KERNEL_BASE - 1024 * PAGE_SIZE
  const KERNEL_STACK_PAGE: nat := (KERNEL_STACK - PAGE_SIZE) / PAGE_SIZE
  const USER_STACK_PAGE: nat := (USER_STACK - PAGE_SIZE) / PAGE_SIZE
  const KERNEL_STACK_TABLE: nat := KERNEL_STACK_PAGE / NUM_ENTRIES

  // ----- how many frames an image takes

  ghost predicate UsesTable(pages: set<nat>, i: nat) {
    exists v :: v in pages && v / NUM_ENTRIES == i
  }

  ghost function TablesFor(pages: set<nat>): (tables: set<nat>)
    ensures forall i: nat :: i in tables <==> UsesTable(pages, i)
  {
    set v | v in pages :: v / NUM_ENTRIES
  }

  /** The frames for these pages: a directory, their page tables, and one for each page. */
  ghost function Weight(pages: set<nat>): nat {
    1 + |TablesFor(pages)| + |pages|
  }

  lemma MoreWeight(pages: set<nat>, page: nat)
    requires page !in pages
    ensures Weight(pages + {page}) == Weight(pages) + if UsesTable(pages, page / NUM_ENTRIES) then 1 else 2
  {
    var i := page / NUM_ENTRIES;
    forall k: nat
      ensures k in TablesFor(pages + {page}) <==> k in TablesFor(pages) + {i}
    {
      if UsesTable(pages, k) {
        var v :| v in pages && v / NUM_ENTRIES == k;
        assert v in pages + {page};
      }
      assert page in pages + {page};
    }
    assert TablesFor(pages + {page}) == TablesFor(pages) + {i};
  }

  lemma WeightMonotone(a: set<nat>, b: set<nat>)
    requires a <= b
    ensures Weight(a) <= Weight(b)
  {
    forall i | i in TablesFor(a)
      ensures i in TablesFor(b)
    {
      var v :| v in a && v / NUM_ENTRIES == i;
      assert v in b;
    }
    SubsetSizes(TablesFor(a), TablesFor(b));
    SubsetSizes(a, b);
  }

  lemma SubsetSizes(a: set<nat>, b: set<nat>)
    requires a <= b
    ensures |a| <= |b|
  {
    assert b == a + (b - a);
  }

  // ----- the tables of an image

  /** A page of its own for the kernel stack; a segment may take that place before. */
  ghost predicate HasKernelStack(image: Image) {
    KERNEL_STACK_PAGE in image && !image[KERNEL_STACK_PAGE].flags.user
  }

  /**
   There is a page table where there are pages; it may be written through, and the user may use it unless it was
   made for the kernel stack.
   */
  ghost predicate TableTallied(e: Entry, image: Image, i: nat) {
    && (!e.Empty() <==> UsesTable(image.Keys, i)) && (!e.Empty() ==> e.flags.writable)
    && (!e.Empty() && (i != KERNEL_STACK_TABLE || !HasKernelStack(image)) ==> e.flags.user)
  }

  /** The directory entry lets the user reach a page that is for the user. */
  ghost predicate OpenToUser(entries: seq<Entry>, image: Image, v: nat) {
    v in image && image[v].flags.user ==>
        v < USER_PAGES && USER_PAGES / NUM_ENTRIES <= |entries| && entries[v / NUM_ENTRIES].flags.user
  }

  ghost predicate TalliedBody(mem: Memory, dir: nat, image: Image) {
    && IsTable(mem, dir) && |Frames(mem, dir)| == Weight(image.Keys)
    && AllTallied(mem[dir].entries, image) && AllOpen(mem[dir].entries, image)
  }

  ghost predicate AllTallied(entries: seq<Entry>, image: Image)
    requires |entries| >= KERNEL_PDE
  {
    forall i :: 0 <= i < KERNEL_PDE ==> TableTallied(entries[i], image, i)
  }

  ghost predicate AllOpen(entries: seq<Entry>, image: Image) {
    forall v: nat :: OpenToUser(entries, image, v)
  }

  /** Keeps `Tallied` closed: what it says is in view only where a key is stated. */
  ghost predicate TallyKey(k: int) {
    true
  }

  ghost predicate Tallied(mem: Memory, dir: nat, image: Image) {
    forall k {:trigger TallyKey(k)} :: TallyKey(k) ==> TalliedBody(mem, dir, image)
  }

  lemma TalliedMeans(mem: Memory, dir: nat, image: Image)
    requires Tallied(mem, dir, image)
    ensures TalliedBody(mem, dir, image)
  {
    assert TallyKey(0);
  }

  /** Pages that are tried next: for the user, until the kernel stack is there, and then not beside it. */
  ghost predicate MayTry(image: Image, page: nat, flags: Flags) {
    && page < USER_PAGES && flags.writable && (flags.user || page == KERNEL_STACK_PAGE)
    && (HasKernelStack(image) ==> flags.user && page / NUM_ENTRIES != KERNEL_STACK_TABLE)
  }

  ghost predicate MayMap(image: Image, page: nat, flags: Flags) {
    MayTry(image, page, flags) && page !in image
  }

  lemma TalliedTables(before: seq<Entry>, after: seq<Entry>, image: Image, page: nat, flags: Flags, x: Frame, i: nat)
    requires Opens(before, after, page / NUM_ENTRIES, flags) && MayMap(image, page, flags) && i < KERNEL_PDE
    requires TableTallied(before[i], image, i) && TableTallied(before[page / NUM_ENTRIES], image, page / NUM_ENTRIES)
    ensures TableTallied(after[i], image[page := Mapped(flags, x)], i)
  {
    var image' := image[page := Mapped(flags, x)];
    assert image'.Keys == image.Keys + {page};
    assert page in image'.Keys;
    if UsesTable(image.Keys, i) {
      var v :| v in image.Keys && v / NUM_ENTRIES == i;
      assert v in image'.Keys;
    }
  }

  lemma StaysOpen(before: seq<Entry>, after: seq<Entry>, image: Image, page: nat, flags: Flags, x: Frame, v: nat)
    requires Opens(before, after, page / NUM_ENTRIES, flags) && MayMap(image, page, flags)
    requires OpenToUser(before, image, v) && AllTallied(before, image)
    ensures OpenToUser(after, image[page := Mapped(flags, x)], v)
  {
    if v in image && v < USER_PAGES {
      assert UsesTable(image.Keys, v / NUM_ENTRIES);
      assert TableTallied(before[v / NUM_ENTRIES], image, v / NUM_ENTRIES);
    }
  }

  lemma AllTablesTallied(before: seq<Entry>, after: seq<Entry>, image: Image, page: nat, flags: Flags, x: Frame)
    requires Opens(before, after, page / NUM_ENTRIES, flags) && MayMap(image, page, flags) && AllTallied(before, image)
    ensures AllTallied(after, image[page := Mapped(flags, x)])
  {
    var image' := image[page := Mapped(flags, x)];
    forall i | 0 <= i < KERNEL_PDE
      ensures TableTallied(after[i], image', i)
    {
      TalliedTables(before, after, image, page, flags, x, i);
    }
  }

  lemma AllStayOpen(before: seq<Entry>, after: seq<Entry>, image: Image, page: nat, flags: Flags, x: Frame)
    requires Opens(before, after, page / NUM_ENTRIES, flags) && MayMap(image, page, flags)
    requires AllTallied(before, image) && AllOpen(before, image)
    ensures AllOpen(after, image[page := Mapped(flags, x)])
  {
    var image' := image[page := Mapped(flags, x)];
    forall v: nat
      ensures OpenToUser(after, image', v)
    {
      StaysOpen(before, after, image, page, flags, x, v);
    }
  }

  /** The weight grows by the page, and by its page table if there was none. */
  lemma WeightAfter(entries: seq<Entry>, image: Image, page: nat, flags: Flags, x: Frame)
    requires |entries| >= KERNEL_PDE && AllTallied(entries, image) && page !in image && page < USER_PAGES
    ensures Weight(image[page := Mapped(flags, x)].Keys)
            == Weight(image.Keys) + if entries[page / NUM_ENTRIES].Empty() then 2 else 1
  {
    assert image[page := Mapped(flags, x)].Keys == image.Keys + {page};
    MoreWeight(image.Keys, page);
    assert TableTallied(entries[page / NUM_ENTRIES], image, page / NUM_ENTRIES);
  }

  /** One more page, with a page table if there was none. */
  lemma TalliedMore(mem0: Memory, mem: Memory, dir: nat, image: Image, page: nat, flags: Flags, x: Frame, tables: nat)
    requires Tallied(mem0, dir, image) && MayMap(image, page, flags) && IsTable(mem0, dir) && IsTable(mem, dir)
    requires Opens(mem0[dir].entries, mem[dir].entries, page / NUM_ENTRIES, flags)
    requires tables == if mem0[dir].entries[page / NUM_ENTRIES].Empty() then 1 else 0
    requires |Frames(mem, dir)| == |Frames(mem0, dir)| + tables + 1
    ensures Tallied(mem, dir, image[page := Mapped(flags, x)])
  {
    TalliedMeans(mem0, dir, image);
    WeightAfter(mem0[dir].entries, image, page, flags, x);
    AllTablesTallied(mem0[dir].entries, mem[dir].entries, image, page, flags, x);
    AllStayOpen(mem0[dir].entries, mem[dir].entries, image, page, flags, x);
    assert TalliedBody(mem, dir, image[page := Mapped(flags, x)]);
  }

  /** The same pages with the same flags, whatever they hold. */
  lemma TalliedSame(mem0: Memory, mem: Memory, dir: nat, image: Image, image': Image)
    requires Tallied(mem0, dir, image) && IsTable(mem0, dir) && IsTable(mem, dir) &&
             |Frames(mem, dir)| == |Frames(mem0, dir)|
    requires forall i :: 0 <= i < KERNEL_PDE ==> mem[dir].entries[i] == mem0[dir].entries[i]
    requires image'.Keys == image.Keys && forall v :: v in image ==> image'[v].flags == image[v].flags
    ensures Tallied(mem, dir, image')
  {
    TalliedMeans(mem0, dir, image);
    forall i | 0 <= i < KERNEL_PDE
      ensures TableTallied(mem[dir].entries[i], image', i)
    {
      assert TableTallied(mem0[dir].entries[i], image, i);
    }
    forall v: nat
      ensures OpenToUser(mem[dir].entries, image', v)
    {
      assert OpenToUser(mem0[dir].entries, image, v);
    }
    assert TalliedBody(mem, dir, image');
  }

  /** A directory of empty entries holds no page. */
  lemma TalliedNothing(mem: Memory, dir: nat)
    requires dir in mem && mem[dir] == EmptyTable() && IsTable(mem, dir) && |Frames(mem, dir)| == 1
    ensures Tallied(mem, dir, map[])
  {
    var nothing: Image := map[];
    assert TablesFor(nothing.Keys) == {};
    assert TalliedBody(mem, dir, nothing);
  }

  // ----- when memory is short

  /** Fewer pages are free than an image of these pages takes. */
  ghost predicate Short(total: nat, m: Partition, pages: set<nat>) {
    FreeCount(total, m) < Weight(pages)
  }

  /** What is taken since `m0` is what the address space owns, and that is its image's weight. */
  lemma TakenWeight(total: nat, m0: Partition, m: Partition, mem: Memory, dir: nat, image: Image)
    requires Tiling(total, m0) && Tiling(total, m) && Took(m0, m, Frames(mem, dir)) && SpaceOk(mem, dir) &&
             Tallied(mem, dir, image)
    ensures FreeCount(total, m0) == FreeCount(total, m) + Weight(image.Keys)
  {
    TalliedMeans(mem, dir, image);
    TookCounts(total, m0, m, Frames(mem, dir));
  }

  /** No frame for the next page. */
  lemma ShortOfPage(total: nat, m0: Partition, m: Partition, mem: Memory, dir: nat, image: Image, page: nat)
    requires Tiling(total, m0) && Tiling(total, m) && Took(m0, m, Frames(mem, dir)) && SpaceOk(mem, dir) &&
             Tallied(mem, dir, image)
    requires Exhausted(m) && page !in image
    ensures Short(total, m0, image.Keys + {page})
  {
    TakenWeight(total, m0, m, mem, dir, image);
    ExhaustedCount(total, m);
    MoreWeight(image.Keys, page);
  }

  /** A frame for the next page, but none for its page table. */
  lemma ShortOfTable(total: nat, m0: Partition, m: Partition, m1: Partition, mem: Memory, dir: nat, image: Image,
                     page: nat, f: nat)
    requires Tiling(total, m0) && Tiling(total, m) && Tiling(total, m1) && Took(m0, m, Frames(mem, dir))
    requires SpaceOk(mem, dir) && Tallied(mem, dir, image) && Took(m, m1, multiset{f}) && f != 0 && Exhausted(m1)
    requires page !in image && page < USER_PAGES && mem[dir].entries[page / NUM_ENTRIES].Empty()
    ensures Short(total, m0, image.Keys + {page})
  {
    TakenWeight(total, m0, m, mem, dir, image);
    TookCounts(total, m, m1, multiset{f});
    ExhaustedCount(total, m1);
    TalliedMeans(mem, dir, image);
    assert TableTallied(mem[dir].entries[page / NUM_ENTRIES], image, page / NUM_ENTRIES);
    MoreWeight(image.Keys, page);
  }

  // ----- what it means

  /** Both levels of the translation let the user in. */
  ghost predicate UserReaches(mem: Memory, dir: nat, v: nat) {
    && IsTable(mem, dir) && v < USER_PAGES
    && mem[dir].entries[v / NUM_ENTRIES].flags.user && mem[dir].entries[v / NUM_ENTRIES].flags.present
    && Translate(mem, dir, v).flags.user && Translate(mem, dir, v).flags.present
  }

  /** The user may reach exactly the pages of the image that are for the user. */
  lemma UserReachesImage(mem: Memory, dir: nat, image: Image, v: nat)
    requires Tallied(mem, dir, image) && HoldsImage(mem, dir, image) && SpaceOk(mem, dir) && v < USER_PAGES
    ensures UserReaches(mem, dir, v) <==> v in image && image[v].flags.user
  {
    TalliedMeans(mem, dir, image);
    assert OpenToUser(mem[dir].entries, image, v) && PageHolds(mem, dir, v, image);
    if v in image {
      assert UsesTable(image.Keys, v / NUM_ENTRIES);
      assert TableTallied(mem[dir].entries[v / NUM_ENTRIES], image, v / NUM_ENTRIES);
    }
  }

  /** Both levels of the translation let the user write. */
  ghost predicate UserWrites(mem: Memory, dir: nat, v: nat) {
    && UserReaches(mem, dir, v)
    && mem[dir].entries[v / NUM_ENTRIES].flags.writable && Translate(mem, dir, v).flags.writable
  }

  /** In a copy the user reaches, and may write, exactly what the user may in the original. */
  lemma CopiedReach(mem: Memory, dir: nat, copy: nat, v: nat)
    requires DirOk(mem, dir) && DirOk(mem, copy) && v < USER_PAGES
    requires CopiedTables(mem, mem[dir].entries, mem[copy].entries, KERNEL_PDE)
    ensures UserReaches(mem, dir, v) <==> UserReaches(mem, copy, v)
    ensures UserWrites(mem, dir, v) <==> UserWrites(mem, copy, v)
  {
    var i := v / NUM_ENTRIES;
    var e, c := mem[dir].entries[i], mem[copy].entries[i];
    assert CopiedTable(mem, e, c);
    CopiedTranslates(mem, dir, copy, v);
    assert TableOk(mem, e) && TableOk(mem, c);
  }

  /** The user may write exactly the pages of the image that are for the user and may be written. */
  lemma UserWritesImage(mem: Memory, dir: nat, image: Image, v: nat)
    requires Tallied(mem, dir, image) && HoldsImage(mem, dir, image) && SpaceOk(mem, dir) && v < USER_PAGES
    ensures UserWrites(mem, dir, v) <==> v in image && image[v].flags.user && image[v].flags.writable
  {
    TalliedMeans(mem, dir, image);
    UserReachesImage(mem, dir, image, v);
    assert PageHolds(mem, dir, v, image);
    if v in image {
      assert UsesTable(image.Keys, v / NUM_ENTRIES);
      assert TableTallied(mem[dir].entries[v / NUM_ENTRIES], image, v / NUM_ENTRIES);
    }
  }
}
