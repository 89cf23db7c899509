/** Processes' address spaces over the page allocator: building, copying and tearing them down. */
module Processes {
  import opened BuddyPartition
  import opened PageAllocator
  import opened FrameSums
  import opened AddressSpace
  import opened FrameOwnership
  import opened FreeFrames
  import opened TearDown
  import opened CopySteps

  const NO_FLAGS := Flags(false, false, false)

  /** The fields of a process record that its memory depends on, and where the record is. */
  class Process {
    var pid: int
    var pageDir: nat
    var memPages: nat
    var kernelStack: nat
    var userStack: nat
    var entry: nat
    /** The saved registers, as one number. */
    var context: nat
    /** The address of the record, and of the parent's. */
    var record: nat
    var parent: nat

    constructor ()
      ensures pid == -1 && pageDir == 0 && memPages == 0
    {
      pid, pageDir, memPages, kernelStack, userStack, entry, context, record, parent := -1, 0, 0, 0, 0, 0, 0, 0, 0;
    }
  }

  class Machine {
    const pmm: Pmm
    const kernelDir: seq<Entry>
    var mem: Memory

    constructor (pmm: Pmm, kernelDir: seq<Entry>)
      requires pmm.Valid() && |kernelDir| == NUM_ENTRIES
      ensures Valid() && this.pmm == pmm && mem == map[]
    {
      this.pmm := pmm;
      this.kernelDir := kernelDir;
      mem := map[];
    }

    ghost predicate Valid()
      reads pmm.Frame()
    {
      pmm.Valid() && |kernelDir| == NUM_ENTRIES && this !in pmm.Frame()
    }

    /** pmm_alloc_page; what the frame holds is then unknown. */
    method AllocPage() returns (f: nat)
      requires Valid()
      modifies this`mem, pmm.Frame()
      ensures Valid()
      ensures f == 0 ==> pmm.part == old(pmm.part) && mem == old(mem) && Exhausted(pmm.part)
      ensures f != 0 ==> Took(old(pmm.part), pmm.part, multiset{f}) && mem == old(mem)[f := Stale]
    {
      f := pmm.AllocPages(0);
      if f == 0 {
        NoRunExhausted(pmm.part);
      } else {
        TookOne(old(pmm.part), pmm.part, f);
        mem := mem[f := Stale];
      }
    }

    /** pmm_free_page. */
    method FreePage(f: nat)
      requires Valid() && f != 0 && IsLive(pmm.part, f, 0)
      modifies this`mem, pmm.Frame()
      ensures Valid()
      ensures Took(pmm.part, old(pmm.part), multiset{f}) && mem == old(mem)[f := Stale]
    {
      FreeFrame(f);
      mem := mem[f := Stale];
    }

    method FreeFrame(f: nat)
      requires Valid() && f != 0 && IsLive(pmm.part, f, 0)
      modifies pmm.Frame()
      ensures Valid() && Took(pmm.part, old(pmm.part), multiset{f})
    {
      assert f in Live(pmm.part) && Live(pmm.part)[f] == 0;
      pmm.FreeBlock(f, 0);
      ReturnedOne(old(pmm.part), pmm.part, f);
    }

    /** vmm_alloc_vaddr_space and vmm_alloc_page_table: a page of 1024 empty entries. */
    method AllocTable() returns (f: nat)
      requires Valid()
      modifies this`mem, pmm.Frame()
      ensures Valid()
      ensures f == 0 ==> pmm.part == old(pmm.part) && mem == old(mem) && Exhausted(pmm.part)
      ensures f != 0 ==> Took(old(pmm.part), pmm.part, multiset{f}) && mem == old(mem)[f := EmptyTable()]
    {
      f := AllocPage();
      if f != 0 {
        mem := mem[f := EmptyTable()];
      }
    }

    /** The address space is well formed and all its frames are live single pages. */
    ghost predicate OwnsSpace(dir: nat)
      reads this`mem, pmm`part
    {
      SpaceOk(mem, dir) && Owned(pmm.part, Frames(mem, dir)) && Resident(mem, dir)
    }

    /** A user process: the page count is the number of frames owned, and 0 without a directory. */
    ghost predicate Accounted(p: Process)
      reads this`mem, pmm`part, p`pageDir, p`memPages
    {
      p !in pmm.Frame() &&
      if p.pageDir == 0 then p.memPages == 0
      else OwnsSpace(p.pageDir) && p.memPages == |Frames(mem, p.pageDir)|
    }

    /** vmm_map. For a page that is mapped already, `remap` stands for the panic. */
    method VmmMap(dir: nat, page: nat, frame: nat, flags: Flags)
      returns (remap: bool, extra: int, ghost tables: multiset<nat>)
      requires Valid() && OwnsSpace(dir) && page < USER_PAGES
      requires frame != 0 && frame !in Frames(mem, dir) && IsLive(pmm.part, frame, 0) && frame in mem
      modifies this`mem, pmm.Frame()
      ensures remap <==> !Translate(old(mem), dir, page).Empty()
      ensures Valid()
      ensures remap ==> mem == old(mem) && pmm.part == old(pmm.part)
      ensures extra == -1 ==>
        mem == old(mem) && pmm.part == old(pmm.part) && Exhausted(pmm.part) &&
          mem[dir].entries[page / NUM_ENTRIES].Empty()
      ensures extra == -1 || extra == |tables|
      ensures !remap && extra != -1 ==>
        Took(old(pmm.part), pmm.part, tables) && OwnsSpace(dir) &&
          PageMapped(old(mem), mem, dir, page, frame, flags, tables)
    {
      ghost var mem0 := mem;
      remap := false;
      extra, tables := EnsureTable(dir, page / NUM_ENTRIES, flags);
      if extra != -1 {
        NewTableApart(old(pmm.part), pmm.part, tables, frame);
        remap := MapUnlessMapped(dir, page, frame, flags, mem0, tables);
      }
    }

    /** vmm_map once there is a page table. */
    method MapUnlessMapped(dir: nat, page: nat, frame: nat, flags: Flags, ghost mem0: Memory,
                           ghost tables: multiset<nat>)
      returns (remap: bool)
      requires Valid() && OwnsSpace(dir) && page < USER_PAGES && !mem[dir].entries[page / NUM_ENTRIES].Empty()
      requires SameTranslation(mem0, mem, dir) && KeptBut(mem0, mem, {dir, TableOf(mem, dir, page)})
      requires frame != 0 && frame !in Frames(mem, dir) && IsLive(pmm.part, frame, 0) && frame in mem
      requires IsTable(mem0, dir) && Opens(mem0[dir].entries, mem[dir].entries, page / NUM_ENTRIES, flags)
      requires |tables| == if mem0[dir].entries[page / NUM_ENTRIES].Empty() then 1 else 0
      requires Frames(mem, dir) == Frames(mem0, dir) + tables
      modifies this`mem
      ensures Valid() && (remap <==> !Translate(mem0, dir, page).Empty()) && (remap ==> mem == old(mem))
      ensures !remap ==> OwnsSpace(dir) && PageMapped(mem0, mem, dir, page, frame, flags, tables)
    {
      remap := IsMapped(dir, page, mem0);
      if !remap {
        MapInTable(dir, page, frame, flags, mem0, tables);
      }
    }

    /** The test of vmm_map on the page's entry, once there is a page table. */
    method IsMapped(dir: nat, page: nat, ghost mem0: Memory) returns (mapped: bool)
      requires Valid() && OwnsSpace(dir) && page < USER_PAGES && !mem[dir].entries[page / NUM_ENTRIES].Empty()
      requires SameTranslation(mem0, mem, dir)
      ensures mapped <==> !Translate(mem0, dir, page).Empty()
    {
      EntryPresent(mem, dir, page);
      var tab := mem[dir].entries[page / NUM_ENTRIES].frame;
      mapped := mem[tab].entries[page % NUM_ENTRIES].flags.present;
    }

    lemma EntryPresent(mem: Memory, dir: nat, page: nat)
      requires DirOk(mem, dir) && page < USER_PAGES && !mem[dir].entries[page / NUM_ENTRIES].Empty()
      ensures IsTable(mem, mem[dir].entries[page / NUM_ENTRIES].frame)
      ensures !Translate(mem, dir, page).Empty() <==>
              mem[mem[dir].entries[page / NUM_ENTRIES].frame].entries[page % NUM_ENTRIES].flags.present
    {
      assert TableOk(mem, mem[dir].entries[page / NUM_ENTRIES]);
    }

    method MapInTable(dir: nat, page: nat, frame: nat, flags: Flags, ghost mem0: Memory, ghost tables: multiset<nat>)
      requires Valid() && OwnsSpace(dir) && page < USER_PAGES && !mem[dir].entries[page / NUM_ENTRIES].Empty()
      requires SameTranslation(mem0, mem, dir) && Translate(mem0, dir, page).Empty()
      requires KeptBut(mem0, mem, {dir, TableOf(mem, dir, page)})
      requires frame != 0 && frame !in Frames(mem, dir) && IsLive(pmm.part, frame, 0) && frame in mem
      requires IsTable(mem0, dir) && Opens(mem0[dir].entries, mem[dir].entries, page / NUM_ENTRIES, flags)
      requires |tables| == if mem0[dir].entries[page / NUM_ENTRIES].Empty() then 1 else 0
      requires Frames(mem, dir) == Frames(mem0, dir) + tables
      modifies this`mem
      ensures Valid() && OwnsSpace(dir) && PageMapped(mem0, mem, dir, page, frame, flags, tables)
    {
      ghost var mem1 := mem;
      EnterMapped(dir, page, frame, flags, mem0);
      MappedWithTable(mem0, mem1, mem, dir, page, frame, flags, tables);
    }

    /** vmm_map once there is a page table; `mem0` is memory before that was made sure. */
    method EnterMapped(dir: nat, page: nat, frame: nat, flags: Flags, ghost mem0: Memory)
      requires Valid() && OwnsSpace(dir) && page < USER_PAGES && !mem[dir].entries[page / NUM_ENTRIES].Empty()
      requires SameTranslation(mem0, mem, dir) && Translate(mem0, dir, page).Empty()
      requires KeptBut(mem0, mem, {dir, TableOf(mem, dir, page)})
      requires frame != 0 && frame !in Frames(mem, dir) && IsLive(pmm.part, frame, 0) && frame in mem
      modifies this`mem
      ensures Valid() && OwnsSpace(dir)
      ensures Frames(mem, dir) == old(Frames(mem, dir)) + multiset{frame}
      ensures KeptBut(mem0, mem, {dir, TableOf(mem, dir, page)})
      ensures MapsOnly(mem0, mem, dir, page, MapEntry(frame, flags)) && IsTable(mem, dir) && mem[dir] == old(mem[dir])
    {
      UnmappedEntry(mem0, mem, dir, page);
      EnterPage(dir, page / NUM_ENTRIES, page % NUM_ENTRIES, frame, flags);
      MappedInTwoSteps(mem0, old(mem), mem, dir, page, MapEntry(frame, flags));
    }

    lemma MappedWithTable(mem0: Memory, mem1: Memory, mem2: Memory, dir: nat, page: nat, frame: nat, flags: Flags,
                          tables: multiset<nat>)
      requires IsTable(mem0, dir) && IsTable(mem1, dir) && IsTable(mem2, dir) && page < USER_PAGES &&
               mem2[dir] == mem1[dir]
      requires Opens(mem0[dir].entries, mem1[dir].entries, page / NUM_ENTRIES, flags)
      requires |tables| == if mem0[dir].entries[page / NUM_ENTRIES].Empty() then 1 else 0
      requires Frames(mem1, dir) == Frames(mem0, dir) + tables &&
               Frames(mem2, dir) == Frames(mem1, dir) + multiset{frame}
      requires KeptBut(mem0, mem2, {dir, TableOf(mem2, dir, page)}) &&
               MapsOnly(mem0, mem2, dir, page, MapEntry(frame, flags))
      ensures PageMapped(mem0, mem2, dir, page, frame, flags, tables)
    {
    }

    lemma UnmappedEntry(mem0: Memory, mem1: Memory, dir: nat, page: nat)
      requires DirOk(mem1, dir) && SameTranslation(mem0, mem1, dir) && page < USER_PAGES
      requires Translate(mem0, dir, page).Empty() && !mem1[dir].entries[page / NUM_ENTRIES].Empty()
      ensures TableOk(mem1, mem1[dir].entries[page / NUM_ENTRIES])
      ensures mem1[mem1[dir].entries[page / NUM_ENTRIES].frame].entries[page % NUM_ENTRIES].Empty()
    {
      assert Translate(mem1, dir, page).Empty();
    }

    lemma NewTableApart(part0: Partition, part1: Partition, tables: multiset<nat>, frame: nat)
      requires Took(part0, part1, tables) && IsLive(part0, frame, 0)
      ensures frame !in tables && IsLive(part1, frame, 0)
    {
    }

    lemma MappedInTwoSteps(mem0: Memory, mem1: Memory, mem2: Memory, dir: nat, page: nat, e: Entry)
      requires SameTranslation(mem0, mem1, dir) && MapsOnly(mem1, mem2, dir, page, e)
      requires KeptBut(mem0, mem1, {dir, TableOf(mem2, dir, page)})
      requires KeptBut(mem1, mem2, {TableOf(mem2, dir, page)})
      ensures MapsOnly(mem0, mem2, dir, page, e)
      ensures KeptBut(mem0, mem2, {dir, TableOf(mem2, dir, page)})
    {
      SameThenMaps(mem0, mem1, mem2, dir, page, e);
    }

    /** Gives directory entry `i` an empty page table unless it has a page table already. */
    method EnsureTable(dir: nat, i: nat, flags: Flags) returns (extra: int, ghost tables: multiset<nat>)
      requires Valid() && OwnsSpace(dir) && i < KERNEL_PDE
      modifies this`mem, pmm.Frame()
      ensures Valid()
      ensures extra == -1 ==> old(mem[dir].entries[i]).Empty()
      ensures extra == -1 ==> mem == old(mem) && pmm.part == old(pmm.part) && Exhausted(pmm.part)
      ensures extra == -1 || extra == |tables|
      ensures extra != -1 ==> Took(old(pmm.part), pmm.part, tables) && OwnsSpace(dir)
      ensures extra != -1 ==> Frames(mem, dir) == old(Frames(mem, dir)) + tables
      ensures extra != -1 ==> !mem[dir].entries[i].Empty() && KeptBut(old(mem), mem, {dir, mem[dir].entries[i].frame})
      ensures extra != -1 ==> SameTranslation(old(mem), mem, dir)
      ensures !old(mem[dir].entries[i]).Empty() ==> mem == old(mem) && pmm.part == old(pmm.part)
      ensures extra != -1 ==>
        && Opens(old(mem[dir].entries), mem[dir].entries, i, flags)
        && extra == if old(mem[dir].entries[i]).Empty() then 1 else 0
    {
      extra, tables := 0, multiset{};
      TookNothing(pmm.part);
      if mem[dir].entries[i].Empty() {
        var tab := AddNewTable(dir, i, flags);
        if tab == 0 {
          return -1, tables;
        }
        extra, tables := 1, multiset{tab};
      }
    }

    /** Allocates an empty page table and enters it for an empty directory entry; 0 if there is no memory. */
    method AddNewTable(dir: nat, i: nat, flags: Flags) returns (tab: nat)
      requires Valid() && OwnsSpace(dir) && i < KERNEL_PDE && mem[dir].entries[i].Empty()
      modifies this`mem, pmm.Frame()
      ensures Valid()
      ensures tab == 0 ==> mem == old(mem) && pmm.part == old(pmm.part) && Exhausted(pmm.part)
      ensures tab != 0 ==>
        && Took(old(pmm.part), pmm.part, multiset{tab}) && OwnsSpace(dir)
        && Frames(mem, dir) == old(Frames(mem, dir)) + multiset{tab}
        && mem == WithTable(old(mem), dir, i, tab, flags)
        && tab != dir && SameTranslation(old(mem), mem, dir)
    {
      tab := AllocTable();
      if tab != 0 {
        TableEntered(old(mem), old(pmm.part), pmm.part, dir, i, tab, flags);
        Write(mem[dir := Table(mem[dir].entries[i := MapEntry(tab, flags)])]);
        assert mem == WithTable(old(mem), dir, i, tab, flags);
      }
    }

    lemma TableEntered(mem0: Memory, part0: Partition, part1: Partition, dir: nat, i: nat, tab: nat, flags: Flags)
      requires SpaceOk(mem0, dir) && Owned(part0, Frames(mem0, dir)) && i < KERNEL_PDE && mem0[dir].entries[i].Empty()
      requires Resident(mem0, dir)
      requires tab != 0 && Took(part0, part1, multiset{tab})
      ensures tab != dir
      ensures var mem := WithTable(mem0, dir, i, tab, flags);
              && SpaceOk(mem, dir) && Frames(mem, dir) == Frames(mem0, dir) + multiset{tab}
              && Owned(part1, Frames(mem, dir)) && SameTranslation(mem0, mem, dir)
              && !mem[dir].entries[i].Empty() && Resident(mem, dir)
      ensures tab !in mem0 || tab !in Frames(mem0, dir)
    {
      OwnedStays(part0, part1, multiset{tab}, Frames(mem0, dir));
      TakenIsOwned(part0, part1, multiset{tab});
      assert tab !in Frames(mem0, dir);
      AddTable(mem0, dir, i, tab, flags);
      SameWithTable(mem0, dir, i, tab, flags);
    }

    /** Writing to memory does not touch the allocator. */
    method Write(mem1: Memory)
      requires Valid()
      modifies this`mem
      ensures Valid() && mem == mem1 && pmm.part == old(pmm.part)
    {
      mem := mem1;
    }

    /** vmm_map_page, into the page table of directory entry `i`. */
    method EnterPage(dir: nat, i: nat, j: nat, frame: nat, flags: Flags)
      requires Valid() && OwnsSpace(dir) && i < KERNEL_PDE && !mem[dir].entries[i].Empty() && j < NUM_ENTRIES
      requires TableOk(mem, mem[dir].entries[i]) && mem[mem[dir].entries[i].frame].entries[j].Empty()
      requires frame != 0 && frame !in Frames(mem, dir) && IsLive(pmm.part, frame, 0) && frame in mem
      modifies this`mem
      ensures Valid()
      ensures mem == WithPage(old(mem), old(mem[dir].entries[i].frame), j, frame, flags)
      ensures OwnsSpace(dir) && Frames(mem, dir) == old(Frames(mem, dir)) + multiset{frame}
      ensures mem[dir] == old(mem[dir]) && KeptBut(old(mem), mem, {mem[dir].entries[i].frame})
      ensures MapsOnly(old(mem), mem, dir, i * NUM_ENTRIES + j, MapEntry(frame, flags))
    {
      var tab := mem[dir].entries[i].frame;
      TableIsOwn(mem, dir, i, if i == 0 then 1 else 0);
      AddPage(mem, dir, i, j, frame, flags);
      MapsOnlyPage(mem, dir, i, j, frame, flags);
      Write(WithPage(mem, tab, j, frame, flags));
    }

    // ----- tearing down

    /** Keeps `TornDown` closed: what it says is in view only where a key is stated. */
    ghost predicate TornKey(k: int) {
      true
    }

    /**
     A teardown that started from `mem0` and `part0`: exactly the frames `returned` were
     given back, and memory outside them and outside `open` is as it was.
     */
    ghost predicate TornDown(mem0: Memory, part0: Partition, returned: multiset<nat>, open: set<nat>)
      reads this`mem, pmm`part
    {
      forall k {:trigger TornKey(k)} :: TornKey(k) ==> TornDownBody(mem0, part0, returned, open)
    }

    ghost predicate TornDownBody(mem0: Memory, part0: Partition, returned: multiset<nat>, open: set<nat>)
      reads this`mem, pmm`part
    {
      && Took(pmm.part, part0, returned)
      && forall f :: f in mem0 && f !in returned && f !in open ==> f in mem && mem[f] == mem0[f]
    }

    /** pmm_free_page_address with its page count, of a frame not yet returned. */
    method ReturnFrame(p: Process, f: nat, ghost mem0: Memory, ghost part0: Partition, ghost returned: multiset<nat>,
                       ghost open: set<nat>)
      requires Valid() && TornDown(mem0, part0, returned, open)
      requires f != 0 && f !in returned && IsLive(part0, f, 0) && p.memPages > 0
      modifies this`mem, pmm.Frame(), p`memPages
      ensures Valid() && TornDown(mem0, part0, returned + multiset{f}, open)
      ensures p.memPages == old(p.memPages) - 1 && mem == old(mem)[f := Stale]
    {
      assert TornKey(0);
      FreePage(f);
      TookMore(pmm.part, old(pmm.part), part0, multiset{f}, returned);
      assert multiset{f} + returned == returned + multiset{f};
      p.memPages := p.memPages - 1;
    }

    /** Unmaps entry `j` of a page table and returns its page, if any. */
    method FreeEntry(p: Process, t: nat, j: nat, ghost mem0: Memory, ghost part0: Partition,
                     ghost returned: multiset<nat>, ghost dir: nat)
      requires Valid() && TornDown(mem0, part0, returned, {dir, t}) && IsTable(mem, t) && j < NUM_ENTRIES && t != dir
      requires var f := mem[t].entries[j].frame;
               f != 0 ==> f != t && f != dir && f !in returned && IsLive(part0, f, 0) && p.memPages > 0
      modifies this`mem, pmm.Frame(), p`memPages
      ensures Valid() && TornDown(mem0, part0, returned + OneFrame(old(mem[t].entries[j])), {dir, t})
      ensures IsTable(mem, t) && mem[t].entries == old(mem[t].entries)[j := Entry(0, NO_FLAGS)]
      ensures p.memPages == old(p.memPages) - |OneFrame(old(mem[t].entries[j]))|
      ensures dir in old(mem) ==> dir in mem && mem[dir] == old(mem)[dir]
    {
      assert TornKey(0);
      var f := mem[t].entries[j].frame;
      Write(mem[t := Table(mem[t].entries[j := Entry(0, NO_FLAGS)])]);
      if f != 0 {
        ReturnFrame(p, f, mem0, part0, returned, {dir, t});
      } else {
        assert returned + multiset{} == returned;
      }
    }

    /** The inner loop of proc_free: unmaps and returns the pages of one page table. */
    method FreeEntries(p: Process, t: nat, ghost mem0: Memory, ghost part0: Partition, ghost returned: multiset<nat>,
                       ghost dir: nat)
      requires Valid() && TornDown(mem0, part0, returned, {dir, t}) && IsTable(mem, t) && t != dir
      requires IsTable(mem0, t) && mem[t] == mem0[t]
      requires OwnFrames(part0, TableParts(mem0, t), returned) && dir !in TableParts(mem0, t)
      requires p.memPages > |Sum(Pages(mem0[t].entries), NUM_ENTRIES)|
      modifies this`mem, pmm.Frame(), p`memPages
      ensures Valid() && TornDown(mem0, part0, returned + Sum(Pages(mem0[t].entries), NUM_ENTRIES), {dir, t})
      ensures p.memPages == old(p.memPages) - |Sum(Pages(mem0[t].entries), NUM_ENTRIES)|
      ensures dir in old(mem) ==> dir in mem && mem[dir] == old(mem)[dir]
    {
      ghost var pages, kept := p.memPages, mem;
      FreeingStarts(p, t, mem0, part0, returned, dir);
      var j := 0;
      while j < NUM_ENTRIES
        invariant 0 <= j <= NUM_ENTRIES && j in Freeing(p, t, mem0, part0, returned, dir, pages)
        invariant dir in kept ==> dir in mem && mem[dir] == kept[dir]
      {
        FreeRound(p, t, j, mem0, part0, returned, dir, pages);
        j := j + 1;
      }
      FreeingEnds(p, t, j, mem0, part0, returned, dir, pages);
    }

    /** The entries before such a `j` are unmapped, with their pages returned and counted. */
    ghost function Freeing(p: Process, t: nat, mem0: Memory, part0: Partition, returned: multiset<nat>, dir: nat,
                           pages: nat): iset<nat>
      requires IsTable(mem0, t)
      reads this`mem, pmm.Frame(), p`memPages
    {
      var t0 := mem0[t].entries;
      iset j: nat | j <= NUM_ENTRIES && Valid() && TornDown(mem0, part0, returned + Sum(Pages(t0), j), {dir, t})
                    && Remaining(mem, t, t0, j) && p.memPages + |Sum(Pages(t0), j)| == pages
    }

    lemma FreeingStarts(p: Process, t: nat, mem0: Memory, part0: Partition, returned: multiset<nat>, dir: nat)
      requires Valid() && TornDown(mem0, part0, returned, {dir, t}) && IsTable(mem0, t)
      requires IsTable(mem, t) && mem[t] == mem0[t]
      ensures 0 in Freeing(p, t, mem0, part0, returned, dir, p.memPages)
    {
      assert returned + multiset{} == returned;
    }

    lemma FreeingEnds(p: Process, t: nat, j: nat, mem0: Memory, part0: Partition, returned: multiset<nat>, dir: nat,
                      pages: nat)
      requires IsTable(mem0, t) && j in Freeing(p, t, mem0, part0, returned, dir, pages) && j == NUM_ENTRIES
      ensures Valid() && TornDown(mem0, part0, returned + Sum(Pages(mem0[t].entries), NUM_ENTRIES), {dir, t})
      ensures p.memPages == pages - |Sum(Pages(mem0[t].entries), NUM_ENTRIES)|
    {
    }

    /** One round of the inner loop of proc_free. */
    method FreeRound(p: Process, t: nat, j: nat, ghost mem0: Memory, ghost part0: Partition,
                     ghost returned: multiset<nat>, ghost dir: nat, ghost pages: nat)
      requires IsTable(mem0, t) && j < NUM_ENTRIES && t != dir
      requires j in Freeing(p, t, mem0, part0, returned, dir, pages)
      requires OwnFrames(part0, TableParts(mem0, t), returned) && dir !in TableParts(mem0, t)
      requires pages > |Sum(Pages(mem0[t].entries), NUM_ENTRIES)|
      modifies this`mem, pmm.Frame(), p`memPages
      ensures j + 1 in Freeing(p, t, mem0, part0, returned, dir, pages)
      ensures dir in old(mem) ==> dir in mem && mem[dir] == old(mem)[dir]
    {
      PagesApart(mem0, part0, t, returned, j);
      assert mem[t].entries[j] == mem0[t].entries[j];
      FreeNextEntry(p, t, j, mem0, part0, returned, dir);
    }

    /** The page of an entry is unmapped and returned. */
    method FreeNextEntry(p: Process, t: nat, j: nat, ghost mem0: Memory, ghost part0: Partition,
                         ghost returned: multiset<nat>, ghost dir: nat)
      requires IsTable(mem0, t) && IsTable(mem, t) && j < NUM_ENTRIES && t != dir
      requires mem[t].entries[j] == mem0[t].entries[j]
      requires Valid() && TornDown(mem0, part0, returned + Sum(Pages(mem0[t].entries), j), {dir, t})
      requires var f := mem[t].entries[j].frame;
               f != 0 ==> && f != t && f != dir && f !in returned + Sum(Pages(mem0[t].entries), j)
                          && IsLive(part0, f, 0) && p.memPages > 0
      modifies this`mem, pmm.Frame(), p`memPages
      ensures Valid() && TornDown(mem0, part0, returned + Sum(Pages(mem0[t].entries), j + 1), {dir, t})
      ensures IsTable(mem, t) && mem[t].entries == old(mem[t].entries)[j := Entry(0, NO_FLAGS)]
      ensures p.memPages ==
              old(p.memPages) - |Sum(Pages(mem0[t].entries), j + 1)| + |Sum(Pages(mem0[t].entries), j)|
      ensures dir in old(mem) ==> dir in mem && mem[dir] == old(mem)[dir]
    {
      ghost var done, more := returned + Sum(Pages(mem0[t].entries), j), OneFrame(mem0[t].entries[j]);
      FreeEntry(p, t, j, mem0, part0, done, dir);
      assert returned + Sum(Pages(mem0[t].entries), j + 1) == done + more;
    }

    /** One page table of a teardown: its pages, then the table itself. */
    method FreeTable(p: Process, t: nat, ghost mem0: Memory, ghost part0: Partition, ghost returned: multiset<nat>,
                     ghost dir: nat)
      requires Valid() && TornDown(mem0, part0, returned, {dir})
      requires t != 0 && t != dir && IsTable(mem0, t) && t !in returned
      requires OwnFrames(part0, TableParts(mem0, t), returned) && dir !in TableParts(mem0, t)
      requires p.memPages >= |TableParts(mem0, t)|
      modifies this`mem, pmm.Frame(), p`memPages
      ensures Valid() && TornDown(mem0, part0, returned + TableParts(mem0, t), {dir})
      ensures p.memPages == old(p.memPages) - |TableParts(mem0, t)|
      ensures dir in old(mem) ==> dir in mem && mem[dir] == old(mem)[dir]
    {
      assert TornKey(0);
      FreeEntries(p, t, mem0, part0, returned, dir);
      TableApart(mem0, t);
      ghost var done := returned + Sum(Pages(mem0[t].entries), NUM_ENTRIES);
      ReturnFrame(p, t, mem0, part0, done, {dir, t});
      assert TornKey(0);
      assert done + multiset{t} == returned + TableParts(mem0, t);
    }

    /** vmm_unmap_page_table_index. */
    method UnmapTable(dir: nat, i: nat) returns (t: nat)
      requires Valid() && IsTable(mem, dir) && i < NUM_ENTRIES
      modifies this`mem
      ensures Valid() && t == old(mem[dir].entries[i].frame)
      ensures mem == old(mem)[dir := Table(old(mem[dir].entries)[i := Entry(0, NO_FLAGS)])]
    {
      t := mem[dir].entries[i].frame;
      Write(mem[dir := Table(mem[dir].entries[i := Entry(0, NO_FLAGS)])]);
    }

    /** The same during a teardown that has the directory open. */
    method UnmapOpen(dir: nat, i: nat, ghost mem0: Memory, ghost part0: Partition, ghost returned: multiset<nat>)
      returns (t: nat)
      requires Valid() && IsTable(mem, dir) && i < NUM_ENTRIES && TornDown(mem0, part0, returned, {dir})
      modifies this`mem
      ensures Valid() && t == old(mem[dir].entries[i].frame) && TornDown(mem0, part0, returned, {dir})
      ensures IsTable(mem, dir) && mem[dir].entries == old(mem[dir].entries)[i := Entry(0, NO_FLAGS)]
    {
      assert TornKey(0);
      t := UnmapTable(dir, i);
    }

    /** One round of the outer loop of proc_free. */
    method FreeDirEntry(p: Process, dir: nat, i: nat, ghost mem0: Memory, ghost part0: Partition)
      requires Valid() && SpaceOk(mem0, dir) && Owned(part0, Frames(mem0, dir)) && i < KERNEL_PDE
      requires TornDown(mem0, part0, Sum(Tables(mem0, mem0[dir].entries), i), {dir})
      requires IsTable(mem, dir) && mem[dir].entries[i] == mem0[dir].entries[i]
      requires p.memPages >= |TableFrames(mem0, mem0[dir].entries[i])|
      modifies this`mem, pmm.Frame(), p`memPages
      ensures Valid()
      ensures TornDown(mem0, part0, Sum(Tables(mem0, mem0[dir].entries), i + 1), {dir})
      ensures IsTable(mem, dir) && mem[dir].entries == old(mem[dir].entries)[i := Entry(0, NO_FLAGS)]
      ensures p.memPages == old(p.memPages) - |TableFrames(mem0, mem0[dir].entries[i])|
    {
      TablesApart(mem0, part0, dir, i);
      var t := UnmapOpen(dir, i, mem0, part0, Sum(Tables(mem0, mem0[dir].entries), i));
      FreeFoundTable(p, t, mem0, part0, Sum(Tables(mem0, mem0[dir].entries), i), dir, mem0[dir].entries[i]);
    }

    /** The body of the outer loop of proc_free after unmapping: nothing to do when there was no page table. */
    method FreeFoundTable(p: Process, t: nat, ghost mem0: Memory, ghost part0: Partition, ghost returned: multiset<nat>,
                          ghost dir: nat, ghost e: Entry)
      requires Valid() && TornDown(mem0, part0, returned, {dir}) && t == e.frame && dir in mem
      requires OwnFrames(part0, TableFrames(mem0, e), returned) && dir !in TableFrames(mem0, e)
      requires !e.Empty() ==> IsTable(mem0, e.frame) && TableFrames(mem0, e) == TableParts(mem0, e.frame)
      requires p.memPages >= |TableFrames(mem0, e)|
      modifies this`mem, pmm.Frame(), p`memPages
      ensures Valid() && TornDown(mem0, part0, returned + TableFrames(mem0, e), {dir})
      ensures p.memPages == old(p.memPages) - |TableFrames(mem0, e)|
      ensures dir in mem && mem[dir] == old(mem)[dir]
    {
      if t != 0 {
        assert t in TableParts(mem0, t);
        FreeTable(p, t, mem0, part0, returned, dir);
      } else {
        assert returned + multiset{} == returned;
      }
    }

    /**
     proc_free, up to the process record itself. Every frame of the address space is given
     back once and nothing else is; the page count ends at 0, so the leak panic is out of reach.
     */
    method ProcFree(p: Process)
      requires Valid() && Accounted(p)
      modifies this`mem, pmm.Frame(), p`memPages
      ensures Valid() && p.memPages == 0
      ensures old(p.pageDir) == 0 ==> mem == old(mem) && pmm.part == old(pmm.part)
      ensures old(p.pageDir) != 0 ==> Took(pmm.part, old(pmm.part), old(Frames(mem, p.pageDir)))
      ensures forall f :: f in old(mem) && (old(p.pageDir) == 0 || f !in old(Frames(mem, p.pageDir))) ==>
                            f in mem && mem[f] == old(mem)[f]
    {
      if p.pageDir != 0 {
        ghost var mem0, part0 := mem, pmm.part;
        var dir := p.pageDir;
        FreeUserHalf(p, dir);
        DirApart(mem0, dir);
        ReturnFrame(p, dir, mem0, part0, Sum(Tables(mem0, mem0[dir].entries), KERNEL_PDE), {dir});
        assert TornKey(0);
      }
    }

    method FreeUserHalf(p: Process, dir: nat)
      requires Valid() && OwnsSpace(dir) && p.memPages == |Frames(mem, dir)|
      modifies this`mem, pmm.Frame(), p`memPages
      ensures Valid() && p.memPages == 1
      ensures TornDown(old(mem), old(pmm.part), Sum(Tables(old(mem), old(mem[dir].entries)), KERNEL_PDE), {dir})
    {
      ghost var mem0, part0, d0 := mem, pmm.part, mem[dir].entries;
      TookNothing(part0);
      var i := 0;
      while i < KERNEL_PDE
        invariant 0 <= i <= KERNEL_PDE
        invariant Valid() && TornDown(mem0, part0, Sum(Tables(mem0, d0), i), {dir})
        invariant IsTable(mem, dir) && forall k :: i <= k < NUM_ENTRIES ==> mem[dir].entries[k] == d0[k]
        invariant p.memPages == |Frames(mem0, dir)| - |Sum(Tables(mem0, d0), i)|
      {
        TablesApart(mem0, part0, dir, i);
        FreeDirEntry(p, dir, i, mem0, part0);
        i := i + 1;
      }
    }

    // ----- copying
    /** Copies one page of the parent into entry `j` of the page table of the clone's directory entry `i`. */
    method ClonePage(clone: Process, i: nat, j: nat, e: Entry) returns (f: nat)
      requires Valid() && clone.pageDir != 0 && Accounted(clone) && i < KERNEL_PDE && j < NUM_ENTRIES
      requires var c := clone.pageDir; !mem[c].entries[i].Empty() && TableOk(mem, mem[c].entries[i])
      requires mem[mem[clone.pageDir].entries[i].frame].entries[j].Empty()
      requires e.frame in mem && IsLive(pmm.part, e.frame, 0)
      modifies this`mem, pmm.Frame(), clone`memPages
      ensures Valid() && Accounted(clone)
      ensures f == 0 ==> mem == old(mem) && pmm.part == old(pmm.part) && Exhausted(pmm.part)
      ensures f != 0 ==>
        && Took(old(pmm.part), pmm.part, multiset{f})
        && Frames(mem, clone.pageDir) == old(Frames(mem, clone.pageDir)) + multiset{f}
        && PageCopied(old(mem), mem, clone.pageDir, i, j, f, e)
    {
      f := AllocCopy(clone.pageDir, i, j, e.frame);
      if f != 0 {
        EnterCopy(clone, i, j, f, e.flags);
      }
    }

    /** Takes a frame and copies the frame `source` to it. */
    method AllocCopy(c: nat, ghost i: nat, ghost j: nat, source: nat) returns (f: nat)
      requires Valid() && OwnsSpace(c) && i < KERNEL_PDE && j < NUM_ENTRIES
      requires !mem[c].entries[i].Empty() && TableOk(mem, mem[c].entries[i])
      requires mem[mem[c].entries[i].frame].entries[j].Empty()
      requires source in mem && IsLive(pmm.part, source, 0)
      modifies this`mem, pmm.Frame()
      ensures Valid()
      ensures f == 0 ==> mem == old(mem) && pmm.part == old(pmm.part) && Exhausted(pmm.part)
      ensures f != 0 ==> Fetched(old(mem), mem, old(pmm.part), pmm.part, c, i, j, f, source)
    {
      ghost var mem0 := mem;
      f := AllocPage();
      if f != 0 {
        FreshFrame(mem0, old(pmm.part), pmm.part, c, i, j, f, source);
        Overwritten(mem0, f, source);
        Write(mem[f := mem[source]]);
      }
    }

    /** Enters a frame in the clone's page table and counts it. */
    method EnterCopy(clone: Process, i: nat, j: nat, f: nat, flags: Flags)
      requires Valid() && clone.pageDir != 0 && Accounted(clone) && i < KERNEL_PDE && j < NUM_ENTRIES
      requires CanEnter(mem, clone.pageDir, i, j, f) && IsLive(pmm.part, f, 0)
      modifies this`mem, clone`memPages
      ensures Valid() && Accounted(clone)
      ensures Frames(mem, clone.pageDir) == old(Frames(mem, clone.pageDir)) + multiset{f}
      ensures mem == WithPage(old(mem), old(mem[clone.pageDir].entries[i].frame), j, f, flags)
      ensures IsTable(mem, clone.pageDir) && mem[clone.pageDir] == old(mem[clone.pageDir])
    {
      ghost var frames := Frames(mem, clone.pageDir);
      EnterPage(clone.pageDir, i, j, f, flags);
      CountFrame(clone, f, frames);
    }

    /** Counts a frame that the address space has come to own. */
    method CountFrame(p: Process, ghost f: nat, ghost before: multiset<nat>)
      requires Valid() && p !in pmm.Frame() && p.pageDir != 0 && OwnsSpace(p.pageDir)
      requires Frames(mem, p.pageDir) == before + multiset{f} && p.memPages == |before|
      modifies p`memPages
      ensures Valid() && Accounted(p)
    {
      p.memPages := p.memPages + 1;
    }

    /** One round of the inner loop of init_proc_from_proc. */
    method CloneEntry(clone: Process, i: nat, j: nat, t: seq<Entry>,
                      ghost dir: nat, ghost mem0: Memory, ghost part0: Partition, ghost taken: multiset<nat>)
      returns (ok: bool, ghost taken': multiset<nat>)
      requires Valid() && clone.pageDir != 0 && Accounted(clone) && |t| == NUM_ENTRIES && j < NUM_ENTRIES
      requires Copying(mem0, mem, part0, pmm.part, dir, clone.pageDir, i, j, t, taken)
      modifies this`mem, pmm.Frame(), clone`memPages
      ensures Valid() && Accounted(clone)
      ensures Copying(mem0, mem, part0, pmm.part, dir, clone.pageDir, i, if ok then j + 1 else j, t, taken')
      ensures IsTable(mem, clone.pageDir) && mem[clone.pageDir] == old(mem[clone.pageDir])
      ensures !ok ==> !t[j].Empty() && Exhausted(pmm.part)
    {
      ok, taken' := true, taken;
      if t[j].Empty() {
        EmptyStep(mem0, mem, part0, pmm.part, dir, clone.pageDir, i, j, t, taken);
      } else {
        ParentPage(mem0, mem, part0, pmm.part, dir, clone.pageDir, i, j, t, taken);
        ghost var mem1, part1, c := mem, pmm.part, clone.pageDir;
        assert SpaceOk(mem1, c);
        assert Copying(mem0, mem1, part0, part1, dir, c, i, j, t, taken);
        var f := ClonePage(clone, i, j, t[j]);
        if f == 0 {
          return false, taken;
        }
        taken' := taken + multiset{f};
        assert SpaceOk(mem, c);
        PageStep(mem0, mem1, mem, part0, part1, pmm.part, dir, c, i, j, t, f, taken);
      }
    }

    /** Copies one page table of the parent, with its pages, into the clone. */
    method CloneTable(clone: Process, dir: nat, i: nat) returns (ok: bool, ghost taken: multiset<nat>)
      requires Valid() && clone.pageDir != 0 && Accounted(clone) && i < KERNEL_PDE
      requires Parent(dir, clone.pageDir, mem, pmm.part) && !mem[dir].entries[i].Empty()
      requires mem[clone.pageDir].entries[i].Empty()
      modifies this`mem, pmm.Frame(), clone`memPages
      ensures Valid() && Accounted(clone)
      ensures Took(old(pmm.part), pmm.part, taken) && KeptFor(old(mem), mem, clone.pageDir, taken)
      ensures Frames(mem, clone.pageDir) == old(Frames(mem, clone.pageDir)) + taken
      ensures IsTable(mem, clone.pageDir) && OtherEntriesKept(old(mem[clone.pageDir].entries),
                                                              mem[clone.pageDir].entries, i)
      ensures ok ==> IsTable(mem, dir) && CopiedTable(mem, mem[dir].entries[i], mem[clone.pageDir].entries[i])
      ensures !ok ==> Exhausted(pmm.part) && |taken| < |old(TableFrames(mem, mem[dir].entries[i]))|
    {
      taken := multiset{};
      TookNothing(pmm.part);
      assert TableOk(mem, mem[dir].entries[i]);
      var t := mem[mem[dir].entries[i].frame].entries;
      var tab := StartTable(clone, dir, i, t);
      ok := tab != 0;
      if ok {
        ok, taken := FillTable(clone, dir, i, tab, t, old(mem), old(pmm.part));
      }
    }

    /** An empty page table for the clone, with the flags that the parent's has. */
    method StartTable(clone: Process, dir: nat, i: nat, ghost t: seq<Entry>) returns (tab: nat)
      requires Valid() && clone.pageDir != 0 && Accounted(clone) && i < KERNEL_PDE
      requires Parent(dir, clone.pageDir, mem, pmm.part) && TableEntries(mem, dir, i, t)
      requires mem[clone.pageDir].entries[i].Empty()
      modifies this`mem, pmm.Frame(), clone`memPages
      ensures Valid() && Accounted(clone)
      ensures tab == 0 ==> mem == old(mem) && pmm.part == old(pmm.part) && Exhausted(pmm.part)
      ensures tab != 0 ==>
        && Copying(old(mem), mem, old(pmm.part), pmm.part, dir, clone.pageDir, i, 0, t, multiset{tab})
        && IsTable(mem, clone.pageDir) && OtherEntriesKept(old(mem[clone.pageDir].entries),
                                                           mem[clone.pageDir].entries, i)
        && mem[clone.pageDir].entries[i].flags == old(mem[dir].entries[i]).flags
    {
      var flags := mem[dir].entries[i].flags;
      tab := AddNewTable(clone.pageDir, i, flags);
      if tab != 0 {
        CountFrame(clone, tab, old(Frames(mem, clone.pageDir)));
        StartCopying(old(mem), mem, old(pmm.part), pmm.part, dir, clone.pageDir, i, tab, t);
        EntryEntered(old(mem), mem, clone.pageDir, i, tab, flags);
      }
    }

    /** The pages behind a page table just entered. */
    method FillTable(clone: Process, dir: nat, i: nat, ghost tab: nat, t: seq<Entry>, ghost mem0: Memory,
                     ghost part0: Partition)
      returns (ok: bool, ghost taken: multiset<nat>)
      requires Valid() && clone.pageDir != 0 && Accounted(clone) && |t| == NUM_ENTRIES && IsTable(mem, clone.pageDir)
      requires Copying(mem0, mem, part0, pmm.part, dir, clone.pageDir, i, 0, t, multiset{tab})
      requires IsTable(mem0, dir) && i < KERNEL_PDE && mem[clone.pageDir].entries[i].flags == mem0[dir].entries[i].flags
      modifies this`mem, pmm.Frame(), clone`memPages
      ensures Valid() && Accounted(clone)
      ensures Took(part0, pmm.part, taken) && KeptFor(mem0, mem, clone.pageDir, taken)
      ensures Frames(mem, clone.pageDir) == Frames(mem0, clone.pageDir) + taken
      ensures IsTable(mem, clone.pageDir) && mem[clone.pageDir] == old(mem[clone.pageDir])
      ensures ok ==> IsTable(mem, dir) && CopiedTable(mem, mem[dir].entries[i], mem[clone.pageDir].entries[i])
      ensures !ok ==> Exhausted(pmm.part) && |taken| < 1 + |Sum(Pages(t), NUM_ENTRIES)|
    {
      ghost var done;
      ok, done, taken := CloneEntries(clone, i, t, dir, mem0, part0, multiset{tab});
      CopyingEnds(mem0, mem, part0, pmm.part, dir, clone.pageDir, i, done, t, taken);
      if !ok {
        StillSmaller(t, done, taken);
      }
    }

    /** The inner loop of init_proc_from_proc. */
    method CloneEntries(clone: Process, i: nat, t: seq<Entry>, ghost dir: nat, ghost mem0: Memory,
                        ghost part0: Partition,
                        ghost taken0: multiset<nat>)
      returns (ok: bool, ghost done: nat, ghost taken: multiset<nat>)
      requires Valid() && clone.pageDir != 0 && Accounted(clone) && |t| == NUM_ENTRIES
      requires IsTable(mem, clone.pageDir)
      requires Copying(mem0, mem, part0, pmm.part, dir, clone.pageDir, i, 0, t, taken0)
      modifies this`mem, pmm.Frame(), clone`memPages
      ensures Valid() && Accounted(clone) && done <= NUM_ENTRIES && (ok ==> done == NUM_ENTRIES)
      ensures Copying(mem0, mem, part0, pmm.part, dir, clone.pageDir, i, done, t, taken)
      ensures IsTable(mem, clone.pageDir) && mem[clone.pageDir] == old(mem[clone.pageDir])
      ensures !ok ==> done < NUM_ENTRIES && !t[done].Empty() && Exhausted(pmm.part)
    {
      ok, taken := true, taken0;
      ghost var c, d := clone.pageDir, mem[clone.pageDir];
      var j := 0;
      while j < NUM_ENTRIES && ok
        invariant 0 <= j <= NUM_ENTRIES && clone.pageDir == c
        invariant Valid() && Accounted(clone)
        invariant Copying(mem0, mem, part0, pmm.part, dir, c, i, j, t, taken)
        invariant IsTable(mem, c) && mem[c] == d
        invariant !ok ==> j < NUM_ENTRIES && !t[j].Empty() && Exhausted(pmm.part)
        decreases NUM_ENTRIES - j, ok
      {
        ok, taken := CloneEntry(clone, i, j, t, dir, mem0, part0, taken);
        j := if ok then j + 1 else j;
      }
      done := j;
    }

    /** init_proc_from_proc. On failure the clone is left as accounted for as it has become. */
    method InitFromProc(clone: Process, dir: nat) returns (ok: bool)
      requires Valid() && Accounted(clone) && clone.pageDir == 0 && OwnsSpace(dir)
      modifies this`mem, pmm.Frame(), clone`memPages, clone`pageDir
      ensures Valid() && Accounted(clone)
      ensures clone.pageDir == 0 ==> !ok && pmm.part == old(pmm.part) && mem == old(mem)
      ensures clone.pageDir != 0 ==>
        && Took(old(pmm.part), pmm.part, Frames(mem, clone.pageDir))
        && KeptFor(old(mem), mem, clone.pageDir, Frames(mem, clone.pageDir))
      ensures ok ==> IsCopy(mem, dir, clone.pageDir) && KernelShared(mem, clone.pageDir)
      ensures !ok ==>
        && Exhausted(pmm.part)
        && (clone.pageDir != 0 ==> |Frames(mem, clone.pageDir)| < |old(Frames(mem, dir))|)
    {
      ghost var mem0, part0 := mem, pmm.part;
      ok := NewCloneDir(clone, dir);
      if ok {
        ok := CloneTables(clone, dir, mem0, part0);
        if ok {
          FinishClone(clone, dir, mem0, part0);
        }
      }
    }

    method NewCloneDir(clone: Process, dir: nat) returns (ok: bool)
      requires Valid() && Accounted(clone) && clone.pageDir == 0 && OwnsSpace(dir)
      modifies this`mem, pmm.Frame(), clone`memPages, clone`pageDir
      ensures Valid() && Accounted(clone)
      ensures !ok ==> clone.pageDir == 0 && pmm.part == old(pmm.part) && mem == old(mem) && Exhausted(pmm.part)
      ensures ok ==>
        && clone.pageDir != 0 && mem == old(mem)[clone.pageDir := EmptyTable()]
        && Cloning(old(mem), mem, old(pmm.part), pmm.part, dir, clone.pageDir, 0)
    {
      var c := AllocTable();
      ok := c != 0;
      if ok {
        clone.pageDir := c;
        clone.memPages := clone.memPages + 1;
        StartCloning(old(mem), old(pmm.part), pmm.part, dir, c);
      }
    }

    method FinishClone(clone: Process, dir: nat, ghost mem0: Memory, ghost part0: Partition)
      requires Valid() && clone.pageDir != 0 && Accounted(clone)
      requires Cloning(mem0, mem, part0, pmm.part, dir, clone.pageDir, KERNEL_PDE)
      modifies this`mem
      ensures Valid() && Accounted(clone)
      ensures Took(part0, pmm.part, Frames(mem, clone.pageDir))
      ensures KeptFor(mem0, mem, clone.pageDir, Frames(mem, clone.pageDir))
      ensures IsCopy(mem, dir, clone.pageDir) && KernelShared(mem, clone.pageDir)
    {
      ghost var mem1 := mem;
      var c := clone.pageDir;
      CloningDone(mem0, mem1, part0, pmm.part, dir, c);
      assert SpaceOk(mem1, c);
      CopyKernelSpace(c);
      KeptForKernel(mem0, mem1, mem, c, Frames(mem, c));
      CopyWithKernel(mem1, mem, dir, c);
    }

    /** The outer loop of init_proc_from_proc. */
    method CloneTables(clone: Process, dir: nat, ghost mem0: Memory, ghost part0: Partition) returns (ok: bool)
      requires Valid() && clone.pageDir != 0 && Accounted(clone) && IsTable(mem0, dir)
      requires Cloning(mem0, mem, part0, pmm.part, dir, clone.pageDir, 0)
      modifies this`mem, pmm.Frame(), clone`memPages
      ensures Valid() && Accounted(clone)
      ensures Took(part0, pmm.part, Frames(mem, clone.pageDir))
      ensures KeptFor(mem0, mem, clone.pageDir, Frames(mem, clone.pageDir))
      ensures ok ==> Cloning(mem0, mem, part0, pmm.part, dir, clone.pageDir, KERNEL_PDE)
      ensures !ok ==> Exhausted(pmm.part) && |Frames(mem, clone.pageDir)| < |Frames(mem0, dir)|
    {
      ghost var c := clone.pageDir;
      CloningSoFar(mem0, mem, part0, pmm.part, dir, c, 0);
      var i := 0;
      ok := true;
      while i < KERNEL_PDE && ok
        invariant 0 <= i <= KERNEL_PDE && clone.pageDir == c
        invariant Valid() && Accounted(clone)
        invariant Took(part0, pmm.part, Frames(mem, c)) && KeptFor(mem0, mem, c, Frames(mem, c))
        invariant ok ==> Cloning(mem0, mem, part0, pmm.part, dir, c, i)
        invariant !ok ==> Exhausted(pmm.part) && |Frames(mem, c)| < |Frames(mem0, dir)|
        decreases KERNEL_PDE - i, ok
      {
        ok := CloneDirEntry(clone, dir, i, mem0, part0);
        i := if ok then i + 1 else i;
      }
    }

    /** One round of the outer loop: an empty directory entry stays empty, a page table is copied. */
    method CloneDirEntry(clone: Process, dir: nat, i: nat, ghost mem0: Memory,
                         ghost part0: Partition)
      returns (ok: bool)
      requires Valid() && clone.pageDir != 0 && Accounted(clone) && i < KERNEL_PDE
      requires Cloning(mem0, mem, part0, pmm.part, dir, clone.pageDir, i)
      modifies this`mem, pmm.Frame(), clone`memPages
      ensures Valid() && Accounted(clone)
      ensures Took(part0, pmm.part, Frames(mem, clone.pageDir)) &&
              KeptFor(mem0, mem, clone.pageDir, Frames(mem, clone.pageDir))
      ensures ok ==> Cloning(mem0, mem, part0, pmm.part, dir, clone.pageDir, i + 1)
      ensures !ok ==> Exhausted(pmm.part) && |Frames(mem, clone.pageDir)| < |Frames(mem0, dir)|
    {
      CloningNext(mem0, mem, part0, pmm.part, dir, clone.pageDir, i);
      if mem[dir].entries[i].Empty() {
        CloningEmpty(mem0, mem, part0, pmm.part, dir, clone.pageDir, i);
        CloningSoFar(mem0, mem, part0, pmm.part, dir, clone.pageDir, i);
        ok := true;
      } else {
        ok := CloneNext(clone, dir, i, mem0, part0);
      }
    }

    method CloneNext(clone: Process, dir: nat, i: nat, ghost mem0: Memory, ghost part0: Partition) returns (ok: bool)
      requires Valid() && clone.pageDir != 0 && Accounted(clone) && i < KERNEL_PDE
      requires Cloning(mem0, mem, part0, pmm.part, dir, clone.pageDir, i)
      requires Parent(dir, clone.pageDir, mem, pmm.part) && !mem[dir].entries[i].Empty()
      requires mem[clone.pageDir].entries[i].Empty()
      modifies this`mem, pmm.Frame(), clone`memPages
      ensures Valid() && Accounted(clone)
      ensures Took(part0, pmm.part, Frames(mem, clone.pageDir))
      ensures KeptFor(mem0, mem, clone.pageDir, Frames(mem, clone.pageDir))
      ensures ok ==> Cloning(mem0, mem, part0, pmm.part, dir, clone.pageDir, i + 1)
      ensures !ok ==> Exhausted(pmm.part) && |Frames(mem, clone.pageDir)| < |Frames(mem0, dir)|
    {
      ghost var mem1, part1, c := mem, pmm.part, clone.pageDir;
      assert SpaceOk(mem1, c);
      CloningSoFar(mem0, mem1, part0, part1, dir, c, i);
      CloningSize(mem0, mem1, part0, part1, dir, c, i);
      ghost var taken;
      ok, taken := CloneTable(clone, dir, i);
      TookMore(part0, part1, pmm.part, Frames(mem1, c), taken);
      KeptForThen(mem0, mem1, mem, c, Frames(mem1, c), taken);
      if ok {
        CloningStep(mem0, mem1, mem, part0, part1, pmm.part, dir, c, i, taken);
      } else {
        SmallerThanParent(mem1, dir, i, |Frames(mem1, c)|, |taken|);
      }
    }

    /** pg_copy_kernel_space. */
    method CopyKernelSpace(dir: nat)
      requires Valid() && OwnsSpace(dir)
      modifies this`mem
      ensures Valid() && OwnsSpace(dir) && Frames(mem, dir) == old(Frames(mem, dir))
      ensures KeptBut(old(mem), mem, {dir}) && KernelShared(mem, dir)
      ensures forall k :: 0 <= k < KERNEL_PDE ==> mem[dir].entries[k] == old(mem[dir].entries[k])
    {
      ghost var mem0 := mem;
      var entries := mem[dir].entries;
      var i := KERNEL_PDE;
      while i < NUM_ENTRIES
        invariant KERNEL_PDE <= i <= NUM_ENTRIES == |entries|
        invariant forall k :: 0 <= k < KERNEL_PDE ==> entries[k] == mem[dir].entries[k]
        invariant forall k :: KERNEL_PDE <= k < i ==> entries[k] == kernelDir[k]
      {
        entries := entries[i := kernelDir[i]];
        i := i + 1;
      }
      KernelHalf(mem, dir, entries);
      Write(mem[dir := Table(entries)]);
    }

    ghost predicate KernelShared(mem: Memory, dir: nat) {
      IsTable(mem, dir) && |kernelDir| == NUM_ENTRIES
      && forall k :: KERNEL_PDE <= k < NUM_ENTRIES ==> mem[dir].entries[k] == kernelDir[k]
    }
  }
}
