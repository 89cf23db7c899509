/** Loading an ELF program into an address space, page by page. */
module ElfLoader {
  import opened Units
  import opened Bytes
  import opened BuddyPartition
  import opened PageAllocator
  import opened AddressSpace
  import opened FrameOwnership
  import opened Processes
  import opened UserImages
  import opened UserTables
  import opened FreeFrames
  import opened ElfFile
  import opened ElfBuilder
  import opened LoadOrder
  import opened ProgramOrder

  // ----- building it

  ghost function Now(k: Machine): Moment
    reads k`mem, k.pmm`part
  {
    Moment(k.mem, k.pmm.part)
  }

  /** Keeps `InProgress` closed: what it says is in view only where a key is stated. */
  ghost predicate ProgressKey(k: int) {
    true
  }

  ghost predicate InProgressBody(k: Machine, p: Process, s0: Moment, image: Image)
    reads k`mem, k.pmm.Frame(), p`pageDir, p`memPages
  {
    && k.Valid() && p.pageDir != 0 && k.Accounted(p) && Building(s0, Now(k), p.pageDir, image)
    && Tallied(k.mem, p.pageDir, image) && Good(k.pmm.total, s0.part)
  }

  /** A process whose address space was begun at `s0`, is accounted for and holds `image` so far. */
  ghost predicate InProgress(k: Machine, p: Process, s0: Moment, image: Image)
    reads k`mem, k.pmm.Frame(), p`pageDir, p`memPages
  {
    forall key {:trigger ProgressKey(key)} :: ProgressKey(key) ==> InProgressBody(k, p, s0, image)
  }

  lemma Opened(k: Machine, p: Process, s0: Moment, image: Image)
    requires InProgress(k, p, s0, image)
    ensures InProgressBody(k, p, s0, image)
  {
    assert ProgressKey(0);
  }

  lemma ProcessApart(k: Machine, p: Process, s0: Moment, image: Image)
    requires InProgress(k, p, s0, image)
    ensures p !in k.pmm.Frame()
  {
    assert ProgressKey(0);
  }

  /** The pages that were free when the address space was begun. */
  ghost function Free(k: Machine, s0: Moment): nat {
    FreeCount(k.pmm.total, s0.part)
  }

  /**
   Takes a page, fills it with `x` and maps it, as load_from_prog_header and alloc_proc_stacks both do. If it is
   refused, every block of the allocator is as it was; if the page is mapped already, that is the end.
   */
  method MapFresh(k: Machine, p: Process, page: nat, flags: Flags, x: Frame, ghost s0: Moment, ghost image: Image)
    returns (out: Loading, f: nat)
    requires InProgress(k, p, s0, image) && MayTry(image, page, flags)
    modifies k`mem, k.pmm.Frame(), p`memPages
    ensures out == Ending(Free(k, s0), image.Keys, [Try(page)])
    ensures out == Refused ==> InProgress(k, p, s0, image)
    ensures out == Loaded ==>
      && InProgress(k, p, s0, image[page := Mapped(flags, x)])
      && Translate(k.mem, p.pageDir, page).frame == f
  {
    ghost var s := Now(k);
    f := TakeFrame(k, p, s0, image);
    if f != 0 {
      out := MapOrReturn(k, p, page, flags, x, f, s0, s, image);
      if out == Loaded {
        MappedWeight(k, p, s0, image, page, flags, x);
      }
    } else {
      out := Refused;
      NoFrame(k, p, s0, image, page);
    }
    OneAttempt(Free(k, s0), image.Keys, page);
  }

  method TakeFrame(k: Machine, p: Process, ghost s0: Moment, ghost image: Image) returns (f: nat)
    requires InProgress(k, p, s0, image)
    modifies k`mem, k.pmm.Frame()
    ensures f == 0 ==> InProgress(k, p, s0, image) && Exhausted(k.pmm.part)
    ensures f != 0 ==>
      var s := old(Now(k));
      && k.Valid() && p.pageDir != 0 && p !in k.pmm.Frame() && Building(s0, s, p.pageDir, image)
      && p.memPages == |Frames(s.mem, p.pageDir)| && Tallied(s.mem, p.pageDir, image)
      && Good(k.pmm.total, s0.part) && Good(k.pmm.total, s.part)
      && Took(s.part, k.pmm.part, multiset{f}) && k.mem == s.mem[f := Stale]
  {
    Opened(k, p, s0, image);
    k.pmm.Open();
    f := k.AllocPage();
    assert f == 0 ==> InProgressBody(k, p, s0, image);
  }

  lemma MappedWeight(k: Machine, p: Process, s0: Moment, image: Image, page: nat, flags: Flags, x: Frame)
    requires InProgress(k, p, s0, image[page := Mapped(flags, x)])
    ensures Free(k, s0) >= Weight(image.Keys + {page})
  {
    ProgressWeight(k, p, s0, image[page := Mapped(flags, x)]);
    assert image[page := Mapped(flags, x)].Keys == image.Keys + {page};
  }

  lemma OneAttempt(free: nat, pages: set<nat>, page: nat)
    ensures Ending(free, pages, [Try(page)]) ==
            if page in pages then (if free <= Weight(pages) then Refused else Remapped)
            else if free < Weight(pages + {page}) then Refused
            else Loaded
  {
    EndingIs(free, pages, [Try(page)]);
    assert [Try(page)][1..] == [];
  }

  /** No frame for the next page, whether it is mapped already or not. */
  lemma NoFrame(k: Machine, p: Process, s0: Moment, image: Image, page: nat)
    requires InProgress(k, p, s0, image) && Exhausted(k.pmm.part)
    ensures Free(k, s0) <= Weight(image.Keys)
    ensures page !in image ==> Short(k.pmm.total, s0.part, image.Keys + {page})
  {
    Opened(k, p, s0, image);
    k.pmm.Open();
    BuildingMeans(s0, Now(k), p.pageDir, image);
    TakenWeight(k.pmm.total, s0.part, k.pmm.part, k.mem, p.pageDir, image);
    ExhaustedCount(k.pmm.total, k.pmm.part);
    if page !in image {
      ShortOfPage(k.pmm.total, s0.part, k.pmm.part, k.mem, p.pageDir, image, page);
    }
  }

  /** There was a frame for the next page. */
  lemma FrameLeft(total: nat, m0: Partition, m: Partition, m1: Partition, mem: Memory, dir: nat, image: Image, f: nat)
    requires Tiling(total, m0) && Tiling(total, m) && Tiling(total, m1) && Took(m0, m, Frames(mem, dir))
    requires SpaceOk(mem, dir) && Tallied(mem, dir, image) && Took(m, m1, multiset{f}) && f != 0
    ensures FreeCount(total, m0) > Weight(image.Keys)
  {
    TakenWeight(total, m0, m, mem, dir, image);
    TookCounts(total, m, m1, multiset{f});
  }

  method MapOrReturn(k: Machine, p: Process, page: nat, flags: Flags, x: Frame, f: nat,
                     ghost s0: Moment, ghost s: Moment, ghost image: Image)
    returns (out: Loading)
    requires k.Valid() && p.pageDir != 0 && p !in k.pmm.Frame() && MayTry(image, page, flags) && f != 0
    requires Building(s0, s, p.pageDir, image) && p.memPages == |Frames(s.mem, p.pageDir)|
    requires Tallied(s.mem, p.pageDir, image) && Good(k.pmm.total, s0.part) && Good(k.pmm.total, s.part)
    requires Took(s.part, k.pmm.part, multiset{f}) && k.mem == s.mem[f := Stale]
    modifies k`mem, k.pmm.Frame(), p`memPages
    ensures out == Remapped <==> page in image
    ensures out == Remapped ==> Free(k, s0) > Weight(image.Keys)
    ensures out == Refused ==> InProgress(k, p, s0, image) && Short(k.pmm.total, s0.part, image.Keys + {page})
    ensures out == Loaded ==>
      && InProgress(k, p, s0, image[page := Mapped(flags, x)])
      && Translate(k.mem, p.pageDir, page).frame == f
  {
    ghost var dir, part1 := p.pageDir, k.pmm.part;
    k.pmm.Open();
    FrameFetched(s0, s, part1, dir, image, f, x);
    FilledAgain(s.mem, f, x);
    MappedAlready(s.mem[f := x], dir, image, page);
    TalliedBeside(s0, s, part1, dir, image, f, x);
    FrameLeft(k.pmm.total, s0.part, s.part, part1, s.mem, dir, image, f);
    k.Write(k.mem[f := x]);
    out := MapOrUndo(k, p, page, flags, x, f, s0, s, part1, image);
  }

  method MapOrUndo(k: Machine, p: Process, page: nat, flags: Flags, x: Frame, f: nat,
                   ghost s0: Moment, ghost s: Moment, ghost part1: Partition, ghost image: Image)
    returns (out: Loading)
    requires k.Valid() && p.pageDir != 0 && p !in k.pmm.Frame() && MayTry(image, page, flags) && f != 0
    requires Building(s0, s, p.pageDir, image) && p.memPages == |Frames(s.mem, p.pageDir)|
    requires Tallied(s.mem, p.pageDir, image) && Good(k.pmm.total, s0.part) && Good(k.pmm.total, s.part)
    requires part1 == k.pmm.part && Took(s.part, part1, multiset{f}) && k.mem == s.mem[f := x]
    requires Tallied(k.mem, p.pageDir, image) && Frames(k.mem, p.pageDir) == Frames(s.mem, p.pageDir)
    requires k.OwnsSpace(p.pageDir) && f !in Frames(k.mem, p.pageDir) && IsLive(part1, f, 0)
    requires SpaceOk(s.mem, p.pageDir) && Took(s0.part, s.part, Frames(s.mem, p.pageDir))
    requires Translate(k.mem, p.pageDir, page).Empty() <==> page !in image
    requires IsTable(s.mem, p.pageDir) && p.pageDir in k.mem && k.mem[p.pageDir] == s.mem[p.pageDir]
    modifies k`mem, k.pmm.Frame(), p`memPages
    ensures out == Remapped <==> page in image
    ensures out == Refused ==> InProgress(k, p, s0, image) && Short(k.pmm.total, s0.part, image.Keys + {page})
    ensures out == Loaded ==>
      && InProgress(k, p, s0, image[page := Mapped(flags, x)])
      && Translate(k.mem, p.pageDir, page).frame == f
  {
    ghost var tables;
    var remap, extra;
    remap, extra, tables := k.VmmMap(p.pageDir, page, f, flags);
    if remap {
      out := Remapped;
    } else if extra == -1 {
      k.pmm.Open();
      ShortOfTable(k.pmm.total, s0.part, s.part, part1, s.mem, p.pageDir, image, page, f);
      GiveBack(k, p, f, x, s0, s, image);
      out := Refused;
    } else {
      FinishMapping(k, p, extra + 1, page, flags, x, f, tables, s0, s, part1, image);
      out := Loaded;
    }
  }

  /** Counts a page just mapped, and its page table if that is new. */
  method FinishMapping(k: Machine, p: Process, more: int, ghost page: nat, ghost flags: Flags, ghost x: Frame,
                       ghost f: nat,
                       ghost tables: multiset<nat>, ghost s0: Moment, ghost s: Moment, ghost part1: Partition,
                         ghost image: Image)
    requires k.Valid() && p.pageDir != 0 && p !in k.pmm.Frame() && MayMap(image, page, flags) && f != 0
    requires Building(s0, s, p.pageDir, image) && p.memPages == |Frames(s.mem, p.pageDir)| && Good(k.pmm.total, s0.part)
    requires Took(s.part, part1, multiset{f}) && Took(part1, k.pmm.part, tables) &&
             Tallied(s.mem[f := x], p.pageDir, image)
    requires k.OwnsSpace(p.pageDir) && PageMapped(s.mem[f := x], k.mem, p.pageDir, page, f, flags, tables)
    requires Frames(s.mem[f := x], p.pageDir) == Frames(s.mem, p.pageDir) && more == |tables| + 1
    modifies p`memPages
    ensures InProgress(k, p, s0, image[page := Mapped(flags, x)]) && Translate(k.mem, p.pageDir, page).frame == f
  {
    PageAdded(s0, s, part1, Now(k), p.pageDir, image, f, x, page, flags, tables);
    CountPages(k, p, more, s0, image[page := Mapped(flags, x)]);
  }

  /** A page just mapped is part of the image. */
  lemma PageAdded(s0: Moment, s: Moment, part1: Partition, s2: Moment, dir: nat, image: Image,
                  f: nat, x: Frame, page: nat, flags: Flags, tables: multiset<nat>)
    requires Building(s0, s, dir, image) && Took(s.part, part1, multiset{f}) && f != 0 && MayMap(image, page, flags)
    requires Took(part1, s2.part, tables) && Tallied(s.mem[f := x], dir, image)
    requires SpaceOk(s2.mem, dir) && Resident(s2.mem, dir) && Owned(s2.part, Frames(s2.mem, dir))
    requires PageMapped(s.mem[f := x], s2.mem, dir, page, f, flags, tables) &&
             Frames(s.mem[f := x], dir) == Frames(s.mem, dir)
    ensures Building(s0, s2, dir, image[page := Mapped(flags, x)]) && Translate(s2.mem, dir, page).frame == f
    ensures Tallied(s2.mem, dir, image[page := Mapped(flags, x)])
  {
    PageEntered(s0, s, part1, s2, dir, image, f, x, page, flags, tables);
    TalliedMore(s.mem[f := x], s2.mem, dir, image, page, flags, x, |tables|);
  }

  /** Filling a frame that was just taken does not concern the page tables. */
  lemma TalliedBeside(s0: Moment, s: Moment, part1: Partition, dir: nat, image: Image, f: nat, x: Frame)
    requires Building(s0, s, dir, image) && Took(s.part, part1, multiset{f}) && f != 0 && Tallied(s.mem, dir, image)
    ensures f != dir && IsTable(s.mem, dir) && s.mem[f := x][dir] == s.mem[dir] && Tallied(s.mem[f := x], dir, image)
    ensures SpaceOk(s.mem, dir) && Took(s0.part, s.part, Frames(s.mem, dir))
  {
    BuildingMeans(s0, s, dir, image);
    FrameFetched(s0, s, part1, dir, image, f, x);
    TalliedSame(s.mem, s.mem[f := x], dir, image, image);
  }

  method CountPages(k: Machine, p: Process, more: int, ghost s0: Moment, ghost image: Image)
    requires k.Valid() && p.pageDir != 0 && p !in k.pmm.Frame() && Building(s0, Now(k), p.pageDir, image)
    requires k.OwnsSpace(p.pageDir) && p.memPages + more == |Frames(k.mem, p.pageDir)|
    requires Tallied(k.mem, p.pageDir, image) && Good(k.pmm.total, s0.part)
    modifies p`memPages
    ensures InProgress(k, p, s0, image)
  {
    p.memPages := p.memPages + more;
    assert InProgressBody(k, p, s0, image);
  }

  /** Frees a frame that could not be mapped. */
  method GiveBack(k: Machine, p: Process, f: nat, ghost x: Frame, ghost s0: Moment, ghost s: Moment, ghost image: Image)
    requires k.Valid() && p.pageDir != 0 && p !in k.pmm.Frame() && f != 0
    requires Building(s0, s, p.pageDir, image) && p.memPages == |Frames(s.mem, p.pageDir)|
    requires Tallied(s.mem, p.pageDir, image) && Good(k.pmm.total, s0.part)
    requires Took(s.part, k.pmm.part, multiset{f}) && k.mem == s.mem[f := x] && Good(k.pmm.total, s.part)
    modifies k`mem, k.pmm.Frame()
    ensures InProgress(k, p, s0, image) && k.pmm.part == s.part
  {
    ghost var part1 := k.pmm.part;
    FrameFetched(s0, s, part1, p.pageDir, image, f, x);
    FilledAgain(s.mem, f, x);
    k.FreePage(f);
    k.pmm.Open();
    FrameReturned(k.pmm.total, s0, s, part1, k.pmm.part, p.pageDir, image, f);
    BuildingMeans(s0, Now(k), p.pageDir, image);
    TalliedBeside(s0, s, part1, p.pageDir, image, f, Stale);
    assert InProgressBody(k, p, s0, image);
  }

  lemma FilledAgain(mem: Memory, f: nat, x: Frame)
    ensures mem[f := Stale][f := x] == mem[f := x] && mem[f := x][f := Stale] == mem[f := Stale]
  {
  }

  lemma MappedAlready(mem: Memory, dir: nat, image: Image, page: nat)
    requires HoldsImage(mem, dir, image) && page < USER_PAGES
    ensures Translate(mem, dir, page).Empty() <==> page !in image
  {
    assert PageHolds(mem, dir, page, image);
  }

  lemma TalliedFilled(s0: Moment, s: Moment, dir: nat, image: Image, page: nat, y: Frame)
    requires Building(s0, s, dir, image) && Tallied(s.mem, dir, image) && page in image
    ensures var f := Translate(s.mem, dir, page).frame;
            Tallied(s.mem[f := y], dir, image[page := image[page].(content := y)])
  {
    BuildingMeans(s0, s, dir, image);
    assert page < USER_PAGES && PageHolds(s.mem, dir, page, image);
    WriteMapped(s.mem, dir, page, y);
    TalliedSame(s.mem, s.mem[Translate(s.mem, dir, page).frame := y], dir, image,
                image[page := image[page].(content := y)]);
  }

  /** Writes to the frame of a mapped page. */
  method FillPage(k: Machine, p: Process, page: nat, f: nat, y: Frame, ghost s0: Moment, ghost image: Image)
    requires InProgress(k, p, s0, image) && page in image && f == Translate(k.mem, p.pageDir, page).frame
    modifies k`mem
    ensures InProgress(k, p, s0, image[page := image[page].(content := y)])
  {
    Opened(k, p, s0, image);
    PageFilled(s0, Now(k), p.pageDir, image, page, y);
    TalliedFilled(s0, Now(k), p.pageDir, image, page, y);
    k.Write(k.mem[f := y]);
    assert InProgressBody(k, p, s0, image[page := image[page].(content := y)]);
  }

  /** One round of the loop of load_from_prog_header. */
  method LoadPage(k: Machine, p: Process, file: seq<Byte>, page: nat, pageOffset: nat, fileOffset: nat, copySize: nat,
                  ghost s0: Moment, ghost image: Image)
    returns (out: Loading, ghost image': Image)
    requires InProgress(k, p, s0, image) && MayTry(image, page, USER_WRITABLE)
    requires pageOffset + copySize <= PAGE_SIZE && fileOffset + copySize <= |file|
    modifies k`mem, k.pmm.Frame(), p`memPages
    ensures out == Ending(Free(k, s0), image.Keys, [Try(page)])
    ensures out != Remapped ==> InProgress(k, p, s0, image')
    ensures out == Loaded ==>
      image' == WithPage(image, page, Overwrite(Zeros(PAGE_SIZE), pageOffset, file[fileOffset..fileOffset + copySize]))
  {
    image' := image;
    var f;
    out, f := MapFresh(k, p, page, USER_WRITABLE, Data(Zeros(PAGE_SIZE)), s0, image);
    if out == Loaded {
      CopyToPage(k, p, file, page, pageOffset, fileOffset, copySize, f, s0, image);
      image' := WithPage(image, page, Overwrite(Zeros(PAGE_SIZE), pageOffset, file[fileOffset..fileOffset + copySize]));
    }
  }

  method CopyToPage(k: Machine, p: Process, file: seq<Byte>, page: nat, pageOffset: nat, fileOffset: nat, copySize: nat,
                    f: nat, ghost s0: Moment, ghost image: Image)
    requires InProgress(k, p, s0, WithPage(image, page, Zeros(PAGE_SIZE)))
    requires f == Translate(k.mem, p.pageDir, page).frame
    requires pageOffset + copySize <= PAGE_SIZE && fileOffset + copySize <= |file|
    modifies k`mem
    ensures InProgress(k, p, s0,
                       WithPage(image, page, Overwrite(Zeros(PAGE_SIZE), pageOffset,
                                                       file[fileOffset..fileOffset + copySize])))
  {
    var bytes := Overwrite(Zeros(PAGE_SIZE), pageOffset, file[fileOffset..fileOffset + copySize]);
    if copySize != 0 {
      SamePage(image, page, Zeros(PAGE_SIZE), bytes);
      FillPage(k, p, page, f, Data(bytes), s0, WithPage(image, page, Zeros(PAGE_SIZE)));
    } else {
      assert bytes == Zeros(PAGE_SIZE);
    }
  }

  ghost function WithPage(image: Image, page: nat, bytes: seq<Byte>): Image {
    image[page := Mapped(USER_WRITABLE, Data(bytes))]
  }

  lemma SamePage(image: Image, page: nat, a: seq<Byte>, b: seq<Byte>)
    ensures var once := WithPage(image, page, a);
            once[page := once[page].(content := Data(b))] == WithPage(image, page, b)
  {
  }

  /** How much of the file part of a segment lies before the address `a`. */
  function Done(ph: ProgHeader, a: nat): nat
    requires ph.vaddr <= a
  {
    if a - ph.vaddr < ph.filesz then a - ph.vaddr else ph.filesz
  }

  /** What one round copies is what the page should hold. */
  lemma CopiedBytes(file: seq<Byte>, ph: ProgHeader, page: nat, pageOffset: nat)
    requires pageOffset < PAGE_SIZE && ph.offset + ph.filesz <= |file|
    requires page * PAGE_SIZE + pageOffset == ph.vaddr || (pageOffset == 0 && ph.vaddr <= page * PAGE_SIZE)
    ensures var a := page * PAGE_SIZE + pageOffset;
            var n := Done(ph, (page + 1) * PAGE_SIZE) - Done(ph, a);
            && 0 <= n && pageOffset + n <= PAGE_SIZE && ph.offset + Done(ph, a) + n <= |file|
            && Overwrite(Zeros(PAGE_SIZE), pageOffset, file[ph.offset + Done(ph, a)..ph.offset + Done(ph, a) + n])
               == PageBytes(file, ph, page)
  {
    var a := page * PAGE_SIZE + pageOffset;
    var n := Done(ph, (page + 1) * PAGE_SIZE) - Done(ph, a);
    var bytes := Overwrite(Zeros(PAGE_SIZE), pageOffset, file[ph.offset + Done(ph, a)..ph.offset + Done(ph, a) + n]);
    forall i: nat | i < PAGE_SIZE
      ensures bytes[i] == PageByte(file, ph, page, i)
    {
    }
  }

  /** load_from_prog_header. */
  method LoadSegment(k: Machine, p: Process, file: seq<Byte>, ph: ProgHeader, ghost s0: Moment, ghost image: Image)
    returns (out: Loading, ghost image': Image)
    requires InProgress(k, p, s0, image) && ph.Loaded() && ph.Placed() && !HasKernelStack(image)
    modifies k`mem, k.pmm.Frame(), p`memPages
    ensures out == Ending(Free(k, s0), image.Keys, SegmentAttempts(ph, |file|))
    ensures out != Remapped ==> InProgress(k, p, s0, image')
    ensures out == Loaded ==> ph.Accepted(|file|) && image' == WithPages(image, file, ph, ph.EndPage())
  {
    SegmentEnding(Free(k, s0), image.Keys, ph, |file|);
    out, image' := if ph.Accepted(|file|) then Loaded else Refused, image;
    if out == Loaded && ph.memsz != 0 {
      out, image' := LoadPages(k, p, file, ph, s0, image);
    }
  }

  /** A header that fails its checks is refused, and a segment of no bytes is loaded at once. */
  lemma SegmentEnding(free: nat, pages: set<nat>, ph: ProgHeader, size: nat)
    requires ph.Loaded()
    ensures !ph.Accepted(size) ==> Ending(free, pages, SegmentAttempts(ph, size)) == Refused
    ensures ph.Accepted(size) && ph.memsz == 0 ==> Ending(free, pages, SegmentAttempts(ph, size)) == Loaded
    ensures ph.Accepted(size) ==> SegmentAttempts(ph, size) == PagesFrom(ph.FirstPage(), ph.EndPage())
  {
    EndingIs(free, pages, SegmentAttempts(ph, size));
  }

  /** The page loop of load_from_prog_header. */
  method LoadPages(k: Machine, p: Process, file: seq<Byte>, ph: ProgHeader, ghost s0: Moment, ghost image: Image)
    returns (out: Loading, ghost image': Image)
    requires InProgress(k, p, s0, image) && !HasKernelStack(image)
    requires ph.Placed() && ph.Accepted(|file|) && ph.memsz > 0
    modifies k`mem, k.pmm.Frame(), p`memPages
    ensures out == Ending(Free(k, s0), image.Keys, PagesFrom(ph.FirstPage(), ph.EndPage()))
    ensures out != Remapped ==> InProgress(k, p, s0, image')
    ensures out == Loaded ==> image' == WithPages(image, file, ph, ph.EndPage())
  {
    image', out := image, Loaded;
    FirstCursor(ph);
    NothingToTry(Free(k, s0), ph.EndPage());
    var fileSize: nat, fileOffset: nat, pageOffset: nat := ph.filesz, ph.offset, ph.vaddr % PAGE_SIZE;
    var end, page: nat := (ph.vaddr + ph.memsz) % WORD, (ph.vaddr - pageOffset) / PAGE_SIZE;
    while page * PAGE_SIZE < end
      invariant Cursor(ph, page, pageOffset, fileOffset, fileSize)
      invariant InProgress(k, p, s0, image') && image' == WithPages(image, file, ph, page) && out == Loaded
      invariant Ending(Free(k, s0), image.Keys, PagesFrom(ph.FirstPage(), ph.EndPage()))
                == Ending(Free(k, s0), image'.Keys, PagesFrom(page, ph.EndPage()))
      decreases ph.EndPage() - page
    {
      CursorBound(ph, page, pageOffset, fileOffset, fileSize);
      NextAttempt(Free(k, s0), image', image, file, ph, page);
      var copySize: nat;
      out, copySize, image' := LoadNext(k, p, file, ph, page, pageOffset, fileOffset, fileSize, s0, image, image');
      if out != Loaded {
        return;
      }
      NextCursor(ph, page, pageOffset, fileOffset, fileSize, copySize);
      page, pageOffset, fileOffset, fileSize := page + 1, 0, fileOffset + copySize, fileSize - copySize;
    }
    CursorBound(ph, page, pageOffset, fileOffset, fileSize);
  }

  lemma NothingToTry(free: nat, end: nat)
    ensures forall pages :: Ending(free, pages, PagesFrom(end, end)) == Loaded
  {
    forall pages
      ensures Ending(free, pages, PagesFrom(end, end)) == Loaded
    {
      EndingIs(free, pages, []);
    }
  }

  lemma NextAttempt(free: nat, before: Image, image: Image, file: seq<Byte>, ph: ProgHeader, page: nat)
    requires ph.FirstPage() <= page < ph.EndPage() && before == WithPages(image, file, ph, page)
    ensures var first := Ending(free, before.Keys, [Try(page)]);
            Ending(free, before.Keys, PagesFrom(page, ph.EndPage())) ==
            if first == Loaded
            then Ending(free, WithPages(image, file, ph, page + 1).Keys, PagesFrom(page + 1, ph.EndPage()))
            else first
  {
    EndingThen(free, before.Keys, [Try(page)], PagesFrom(page + 1, ph.EndPage()));
    assert PagesOf([Try(page)]) == {page};
    assert WithPages(image, file, ph, page + 1).Keys == before.Keys + {page};
  }

  /** The loop's variables before page `page` is loaded. */
  ghost predicate CursorBody(ph: ProgHeader, page: nat, pageOffset: nat, fileOffset: nat, fileSize: nat) {
    && ph.FirstPage() <= page <= ph.EndPage()
    && pageOffset == (if page == ph.FirstPage() then ph.vaddr % PAGE_SIZE else 0)
    && ph.vaddr <= page * PAGE_SIZE + pageOffset
    && fileOffset == ph.offset + Done(ph, page * PAGE_SIZE + pageOffset)
    && fileSize == ph.filesz - Done(ph, page * PAGE_SIZE + pageOffset)
  }

  /** Keeps `Cursor` closed: what it says is in view only where a key is stated. */
  ghost predicate CursorKey(k: int) {
    true
  }

  ghost predicate Cursor(ph: ProgHeader, page: nat, pageOffset: nat, fileOffset: nat, fileSize: nat) {
    forall key {:trigger CursorKey(key)} :: CursorKey(key) ==> CursorBody(ph, page, pageOffset, fileOffset, fileSize)
  }

  lemma FirstCursor(ph: ProgHeader)
    requires ph.Placed() && ph.memsz > 0
    ensures ph.FirstPage() == (ph.vaddr - ph.vaddr % PAGE_SIZE) / PAGE_SIZE
    ensures Cursor(ph, ph.FirstPage(), ph.vaddr % PAGE_SIZE, ph.offset, ph.filesz)
  {
    assert CursorBody(ph, ph.FirstPage(), ph.vaddr % PAGE_SIZE, ph.offset, ph.filesz);
  }

  /** The loop's guard holds until the last page is loaded. */
  lemma CursorBound(ph: ProgHeader, page: nat, pageOffset: nat, fileOffset: nat, fileSize: nat)
    requires ph.Placed() && ph.memsz > 0 && Cursor(ph, page, pageOffset, fileOffset, fileSize)
    ensures page <= ph.EndPage() && (page < ph.EndPage() <==> page * PAGE_SIZE < (ph.vaddr + ph.memsz) % WORD)
  {
    assert CursorKey(0);
  }

  lemma NextCursor(ph: ProgHeader, page: nat, pageOffset: nat, fileOffset: nat, fileSize: nat, copySize: nat)
    requires ph.Placed() && ph.memsz > 0 && page < ph.EndPage()
    requires Cursor(ph, page, pageOffset, fileOffset, fileSize)
    requires copySize == if fileSize < PAGE_SIZE - pageOffset then fileSize else PAGE_SIZE - pageOffset
    ensures copySize <= fileSize && Cursor(ph, page + 1, 0, fileOffset + copySize, fileSize - copySize)
  {
    assert CursorKey(0);
    assert CursorBody(ph, page + 1, 0, fileOffset + copySize, fileSize - copySize);
  }

  method LoadNext(k: Machine, p: Process, file: seq<Byte>, ph: ProgHeader, page: nat, pageOffset: nat,
                  fileOffset: nat, fileSize: nat, ghost s0: Moment, ghost image: Image, ghost before: Image)
    returns (out: Loading, copySize: nat, ghost after: Image)
    requires InProgress(k, p, s0, before)
    requires ph.Placed() && ph.Accepted(|file|) && ph.memsz > 0 && !HasKernelStack(image)
    requires page < ph.EndPage() && Cursor(ph, page, pageOffset, fileOffset, fileSize)
    requires before == WithPages(image, file, ph, page)
    modifies k`mem, k.pmm.Frame(), p`memPages
    ensures out == Ending(Free(k, s0), before.Keys, [Try(page)])
    ensures out != Remapped ==> InProgress(k, p, s0, after)
    ensures out == Loaded ==> after == WithPages(image, file, ph, page + 1)
    ensures copySize == if fileSize < PAGE_SIZE - pageOffset then fileSize else PAGE_SIZE - pageOffset
  {
    NextPage(image, file, ph, page, pageOffset, fileOffset, fileSize);
    var sizeInPage := PAGE_SIZE - pageOffset;
    copySize := if fileSize < sizeInPage then fileSize else sizeInPage;
    NoKernelStack(image, file, ph, page);
    out, after := LoadPage(k, p, file, page, pageOffset, fileOffset, copySize, s0, before);
  }

  lemma NoKernelStack(image: Image, file: seq<Byte>, ph: ProgHeader, page: nat)
    requires !HasKernelStack(image)
    ensures !HasKernelStack(WithPages(image, file, ph, page))
  {
    WithPagesAt(image, file, ph, page, KERNEL_STACK_PAGE);
  }

  lemma NextPage(image: Image, file: seq<Byte>, ph: ProgHeader, page: nat, pageOffset: nat, fileOffset: nat,
                 fileSize: nat)
    requires ph.Placed() && ph.Accepted(|file|) && ph.memsz > 0
    requires page < ph.EndPage() && Cursor(ph, page, pageOffset, fileOffset, fileSize)
    ensures page < USER_PAGES && pageOffset < PAGE_SIZE
    ensures var n := if fileSize < PAGE_SIZE - pageOffset then fileSize else PAGE_SIZE - pageOffset;
            && pageOffset + n <= PAGE_SIZE && fileOffset + n <= |file|
            && WithPages(image, file, ph, page + 1) ==
               WithPage(WithPages(image, file, ph, page), page,
                        Overwrite(Zeros(PAGE_SIZE), pageOffset, file[fileOffset..fileOffset + n]))
  {
    assert CursorKey(0);
    CopiedBytes(file, ph, page, pageOffset);
    assert ph.Touches(page);
  }

  // ----- the program header table

  /** Keeps `IsSegments` closed: what it says is in view only where a key is stated. */
  ghost predicate SegmentsKey(k: int) {
    true
  }

  /** The image has the segments of these headers, and nothing else. */
  ghost predicate IsSegments(image: Image, file: seq<Byte>, headers: seq<ProgHeader>) {
    forall key {:trigger SegmentsKey(key)} :: SegmentsKey(key) ==> image == WithSegments(map[], file, headers)
  }

  lemma SegmentsMean(image: Image, file: seq<Byte>, headers: seq<ProgHeader>)
    requires IsSegments(image, file, headers)
    ensures image == WithSegments(map[], file, headers)
  {
    assert SegmentsKey(0);
  }

  lemma NoSegments(file: seq<Byte>)
    ensures IsSegments(map[], file, [])
  {
  }

  /** What loading the next header needs, and what it makes of the image. */
  lemma NextHeader(image: Image, file: seq<Byte>, all: seq<ProgHeader>, done: seq<ProgHeader>, ph: ProgHeader,
                   rest: seq<ProgHeader>)
    requires all == done + ([ph] + rest) && AllPlaced(all) && IsSegments(image, file, done)
    ensures ph.Loaded() ==> ph.Placed()
    ensures !HasKernelStack(image) && IsSegments(WithSegment(image, file, ph), file, done + [ph])
  {
    assert all[|done|] == ph;
    assert (done + [ph])[..|done|] == done;
    SegmentsMean(image, file, done);
    SegmentsForUser(file, done);
  }

  /** Segments are for the user. */
  lemma {:induction false} SegmentsForUser(file: seq<Byte>, headers: seq<ProgHeader>)
    ensures !HasKernelStack(WithSegments(map[], file, headers))
    decreases |headers|
  {
    if headers != [] {
      var n := |headers| - 1;
      SegmentsForUser(file, headers[..n]);
      NoKernelStack(WithSegments(map[], file, headers[..n]), file, headers[n], headers[n].EndPage());
    }
  }

  /** The attempts of one segment, and those of the others. */
  lemma NextSegment(free: nat, image: Image, file: seq<Byte>, ph: ProgHeader, rest: seq<ProgHeader>)
    ensures var first := Ending(free, image.Keys, SegmentAttempts(ph, |file|));
            Ending(free, image.Keys, TableAttempts([ph] + rest, |file|)) ==
            if first == Loaded then Ending(free, WithSegment(image, file, ph).Keys, TableAttempts(rest, |file|))
            else first
  {
    var own := SegmentAttempts(ph, |file|);
    assert ([ph] + rest)[1..] == rest;
    EndingThen(free, image.Keys, own, TableAttempts(rest, |file|));
    if ph.Loaded() && ph.Accepted(|file|) {
      PagesFromAre(ph.FirstPage(), ph.EndPage());
      forall v: nat
        ensures v in WithSegment(image, file, ph) <==> v in image || Try(v) in own
      {
        WithPagesAt(image, file, ph, ph.EndPage(), v);
      }
      assert WithSegment(image, file, ph).Keys == image.Keys + PagesOf(own);
    } else if !ph.Loaded() {
      assert image.Keys + PagesOf(own) == image.Keys;
    } else {
      EndingIs(free, image.Keys, own);
      assert own[0] == Reject;
    }
  }

  /** How far the table is read: the headers done, those to come, where they are, and how many. */
  datatype Reading = Reading(done: seq<ProgHeader>, rest: seq<ProgHeader>, at: nat, left: nat)

  ghost predicate IsReading(file: seq<Byte>, all: seq<ProgHeader>, entrySize: nat, r: Reading) {
    Readable(file, r.at, entrySize, r.left) && r.rest == Headers(file, r.at, entrySize, r.left) &&
      all == r.done + r.rest
  }

  ghost function Readings(file: seq<Byte>, all: seq<ProgHeader>, entrySize: nat): iset<Reading> {
    iset r: Reading | IsReading(file, all, entrySize, r)
  }

  lemma AllToRead(file: seq<Byte>, at: nat, entrySize: nat, n: nat)
    requires Readable(file, at, entrySize, n)
    ensures var all := Headers(file, at, entrySize, n); Reading([], all, at, n) in Readings(file, all, entrySize)
  {
    var all := Headers(file, at, entrySize, n);
    assert all == [] + all;
  }

  lemma NextToRead(file: seq<Byte>, all: seq<ProgHeader>, entrySize: nat, r: Reading) returns (r': Reading)
    requires r in Readings(file, all, entrySize) && r.left > 0
    ensures r' in Readings(file, all, entrySize) && r'.left == r.left - 1 && r'.at == r.at + entrySize
    ensures r.rest == [HeaderAt(file, r.at)] + r'.rest && r'.done == r.done + [HeaderAt(file, r.at)]
    ensures all == r.done + ([HeaderAt(file, r.at)] + r'.rest)
  {
    var ph := HeaderAt(file, r.at);
    r' := Reading(r.done + [ph], Headers(file, r.at + entrySize, entrySize, r.left - 1), r.at + entrySize, r.left - 1);
    assert all == r'.done + r'.rest;
  }

  lemma NoneToRead(file: seq<Byte>, all: seq<ProgHeader>, entrySize: nat, r: Reading)
    requires r in Readings(file, all, entrySize) && r.left == 0
    ensures all == r.done && r.rest == []
  {
  }

  /** load_from_pht. */
  method LoadTable(k: Machine, p: Process, file: seq<Byte>, table: nat, entrySize: nat, num: nat, ghost s0: Moment)
    returns (out: Loading, ghost image: Image)
    requires InProgress(k, p, s0, map[]) && TableLoadable(file, table, entrySize, num)
    modifies k`mem, k.pmm.Frame(), p`memPages
    ensures out == Ending(Free(k, s0), {}, TableAttempts(Headers(file, table, entrySize, num), |file|))
    ensures out != Remapped ==> InProgress(k, p, s0, image)
    ensures out == Loaded ==> IsSegments(image, file, Headers(file, table, entrySize, num))
  {
    out, image := Loaded, map[];
    assert image.Keys == {};
    NoSegments(file);
    ghost var all := Headers(file, table, entrySize, num);
    ghost var r := Reading([], all, table, num);
    AllToRead(file, table, entrySize, num);
    var i: nat, at: nat := 0, table;
    while i < num
      invariant i + r.left == num && at == r.at && r in Readings(file, all, entrySize)
      invariant InProgress(k, p, s0, image) && out == Loaded && IsSegments(image, file, r.done)
      invariant Ending(Free(k, s0), {}, TableAttempts(all, |file|)) ==
                Ending(Free(k, s0), image.Keys, TableAttempts(r.rest, |file|))
    {
      ghost var r' := NextToRead(file, all, entrySize, r);
      out, image := LoadListed(k, p, file, at, all, r.done, r'.rest, r'.done, s0, image);
      if out != Loaded {
        return;
      }
      i, at, r := i + 1, at + entrySize, r';
    }
    NoneToRead(file, all, entrySize, r);
    EndingIs(Free(k, s0), image.Keys, []);
  }

  method LoadListed(k: Machine, p: Process, file: seq<Byte>, at: nat, ghost all: seq<ProgHeader>,
                    ghost done: seq<ProgHeader>, ghost rest: seq<ProgHeader>, ghost done': seq<ProgHeader>,
                    ghost s0: Moment, ghost image: Image)
    returns (out: Loading, ghost image': Image)
    requires InProgress(k, p, s0, image) && all == done + ([HeaderAt(file, at)] + rest) && AllPlaced(all)
    requires done' == done + [HeaderAt(file, at)]
    requires IsSegments(image, file, done)
    modifies k`mem, k.pmm.Frame(), p`memPages
    ensures Ending(Free(k, s0), image.Keys, TableAttempts([HeaderAt(file, at)] + rest, |file|)) ==
            if out == Loaded then Ending(Free(k, s0), image'.Keys, TableAttempts(rest, |file|)) else out
    ensures out != Remapped ==> InProgress(k, p, s0, image')
    ensures out == Loaded ==> IsSegments(image', file, done')
  {
    NextHeader(image, file, all, done, HeaderAt(file, at), rest);
    NextSegment(Free(k, s0), image, file, HeaderAt(file, at), rest);
    out, image' := LoadHeader(k, p, file, at, s0, image);
  }

  /** One round of the loop of load_from_pht. */
  method LoadHeader(k: Machine, p: Process, file: seq<Byte>, at: nat, ghost s0: Moment, ghost image: Image)
    returns (out: Loading, ghost image': Image)
    requires InProgress(k, p, s0, image) && !HasKernelStack(image)
    requires HeaderAt(file, at).Loaded() ==> HeaderAt(file, at).Placed()
    modifies k`mem, k.pmm.Frame(), p`memPages
    ensures out == Ending(Free(k, s0), image.Keys, SegmentAttempts(HeaderAt(file, at), |file|))
    ensures out != Remapped ==> InProgress(k, p, s0, image')
    ensures out == Loaded ==> image' == WithSegment(image, file, HeaderAt(file, at))
  {
    var ph := HeaderAt(file, at);
    out, image' := Loaded, image;
    EndingIs(Free(k, s0), image.Keys, []);
    if ph.kind == PT_LOAD || ph.kind == PT_PHDR {
      out, image' := LoadSegment(k, p, file, ph, s0, image);
    }
  }

  /** elf_load_program. */
  method LoadProgram(k: Machine, p: Process, file: seq<Byte>, ghost s0: Moment)
    returns (out: Loading, ghost image: Image)
    requires InProgress(k, p, s0, map[]) && Loadable(file) && Free(k, s0) > 0
    modifies k`mem, k.pmm.Frame(), p`memPages, p`entry
    ensures ElfEnding(Free(k, s0), file) ==
            if out == Loaded then Ending(Free(k, s0), image.Keys, StackAttempts()) else out
    ensures out != Remapped ==> InProgress(k, p, s0, image)
    ensures out == Loaded ==>
      !HasKernelStack(image) && WithStacks(image) == ProgramImage(file) && p.entry == EntryPoint(file)
  {
    out, image := Refused, map[];
    if HeaderAccepted(file) {
      out, image := LoadTable(k, p, file, TableOffset(file), TableEntrySize(file), TableEntries(file), s0);
      if out == Loaded {
        ProcessApart(k, p, s0, image);
        p.entry := EntryPoint(file);
        TableThenStacks(Free(k, s0), image, file);
      }
    }
    EndsBeforeStacks(Free(k, s0), file);
  }

  // ----- stacks, and the whole address space

  /** alloc_proc_stacks. */
  method AllocStacks(k: Machine, p: Process, ghost s0: Moment, ghost image: Image)
    returns (out: Loading, ghost image': Image)
    requires InProgress(k, p, s0, image) && !HasKernelStack(image)
    modifies k`mem, k.pmm.Frame(), p`memPages, p`kernelStack, p`userStack
    ensures out == Ending(Free(k, s0), image.Keys, StackAttempts())
    ensures out != Remapped ==> InProgress(k, p, s0, image')
    ensures out == Loaded ==>
      image' == WithStacks(image) && p.kernelStack == KERNEL_STACK && p.userStack == USER_STACK
  {
    image' := image;
    var stack;
    BothStacks(Free(k, s0), image);
    out, stack := MapFresh(k, p, KERNEL_STACK_PAGE, WRITABLE, Stale, s0, image);
    if out == Loaded {
      image' := image[KERNEL_STACK_PAGE := Mapped(WRITABLE, Stale)];
      out := AllocUserStack(k, p, s0, image');
      image' := if out == Loaded then WithStacks(image) else image';
    }
  }

  lemma BothStacks(free: nat, image: Image)
    ensures var first := Ending(free, image.Keys, [Try(KERNEL_STACK_PAGE)]);
            var with := image[KERNEL_STACK_PAGE := Mapped(WRITABLE, Stale)];
            Ending(free, image.Keys, StackAttempts()) ==
            if first == Loaded then Ending(free, with.Keys, [Try(USER_STACK_PAGE)]) else first
  {
    var first := [Try(KERNEL_STACK_PAGE)];
    assert StackAttempts() == first + [Try(USER_STACK_PAGE)];
    EndingThen(free, image.Keys, first, [Try(USER_STACK_PAGE)]);
    assert PagesOf(first) == {KERNEL_STACK_PAGE};
    assert image[KERNEL_STACK_PAGE := Mapped(WRITABLE, Stale)].Keys == image.Keys + PagesOf(first);
  }

  method AllocUserStack(k: Machine, p: Process, ghost s0: Moment, ghost image: Image) returns (out: Loading)
    requires InProgress(k, p, s0, image)
    modifies k`mem, k.pmm.Frame(), p`memPages, p`kernelStack, p`userStack
    ensures out == Ending(Free(k, s0), image.Keys, [Try(USER_STACK_PAGE)])
    ensures out == Refused ==> InProgress(k, p, s0, image)
    ensures out == Loaded ==>
      && InProgress(k, p, s0, image[USER_STACK_PAGE := Mapped(USER_WRITABLE, Stale)])
      && p.kernelStack == KERNEL_STACK && p.userStack == USER_STACK
  {
    var stack;
    out, stack := MapFresh(k, p, USER_STACK_PAGE, USER_WRITABLE, Stale, s0, image);
    if out == Loaded {
      SetStacks(k, p, s0, image[USER_STACK_PAGE := Mapped(USER_WRITABLE, Stale)]);
    }
  }

  method SetStacks(k: Machine, p: Process, ghost s0: Moment, ghost image: Image)
    requires InProgress(k, p, s0, image)
    modifies p`kernelStack, p`userStack
    ensures InProgress(k, p, s0, image) && p.kernelStack == KERNEL_STACK && p.userStack == USER_STACK
  {
    ProcessApart(k, p, s0, image);
    p.kernelStack, p.userStack := KERNEL_STACK, USER_STACK;
  }

  /** A directory just allocated is an address space that holds nothing. */
  lemma NewBuilding(s0: Moment, s: Moment, c: nat)
    requires c != 0 && Took(s0.part, s.part, multiset{c}) && s.mem == s0.mem[c := EmptyTable()]
    ensures Building(s0, s, c, map[]) && |Frames(s.mem, c)| == 1
    ensures SpaceOk(s.mem, c) && Owned(s.part, Frames(s.mem, c)) && Resident(s.mem, c) && Tallied(s.mem, c, map[])
  {
    NewSpace(s.mem, c);
    TalliedNothing(s.mem, c);
    TakenIsOwned(s0.part, s.part, multiset{c});
    assert c in multiset{c};
    assert HoldsImage(s.mem, c, map[]);
    assert BuildingBody(s0, s, c, map[]);
  }

  /** The kernel half of the directory is no part of the image. */
  lemma KernelHalfHolds(s0: Moment, s: Moment, mem': Memory, c: nat, image: Image)
    requires Building(s0, s, c, image) && KeptBut(s.mem, mem', {c}) && SpaceOk(mem', c) && Resident(mem', c)
    requires Frames(mem', c) == Frames(s.mem, c) && IsTable(s.mem, c)
    requires forall i :: 0 <= i < KERNEL_PDE ==> mem'[c].entries[i] == s.mem[c].entries[i]
    ensures Building(s0, Moment(mem', s.part), c, image)
  {
    BuildingMeans(s0, s, c, image);
    assert c in Frames(s.mem, c);
    forall v: nat | v < USER_PAGES
      ensures Translate(mem', c, v) == Translate(s.mem, c, v) && Contents(mem', c, v) == Contents(s.mem, c, v)
    {
      SameHalf(s.mem, mem', c, v);
    }
    HoldsSame(s.mem, mem', c, image);
    assert BuildingBody(s0, Moment(mem', s.part), c, image);
  }

  lemma SameHalf(mem: Memory, mem': Memory, c: nat, v: nat)
    requires SpaceOk(mem, c) && SpaceOk(mem', c) && Resident(mem, c) && KeptBut(mem, mem', {c}) && v < USER_PAGES
    requires forall i :: 0 <= i < KERNEL_PDE ==> mem'[c].entries[i] == mem[c].entries[i]
    ensures Translate(mem', c, v) == Translate(mem, c, v) && Contents(mem', c, v) == Contents(mem, c, v)
  {
    var i := v / NUM_ENTRIES;
    assert TableOk(mem, mem[c].entries[i]);
    if !mem[c].entries[i].Empty() {
      TableIsOwn(mem, c, i, if i == 0 then 1 else 0);
      SameEntry(mem, mem', c, v);
    }
  }

  lemma SameEntry(mem: Memory, mem': Memory, c: nat, v: nat)
    requires SpaceOk(mem, c) && IsTable(mem', c) && Resident(mem, c) && KeptBut(mem, mem', {c}) && v < USER_PAGES
    requires mem'[c].entries[v / NUM_ENTRIES] == mem[c].entries[v / NUM_ENTRIES]
    requires !mem[c].entries[v / NUM_ENTRIES].Empty() && IsTable(mem, mem[c].entries[v / NUM_ENTRIES].frame)
    requires mem[c].entries[v / NUM_ENTRIES].frame != c
    ensures Translate(mem', c, v) == Translate(mem, c, v) && Contents(mem', c, v) == Contents(mem, c, v)
  {
    if !Translate(mem, c, v).Empty() {
      MappedResident(mem, c, v);
      MappedFrame(mem, c, v);
    }
  }

  /**
   init_proc_from_elf. If it is refused, the process is left accounted for, holding what was loaded; if a page
   is mapped already, that is the end.
   */
  method InitFromElf(k: Machine, p: Process, file: seq<Byte>) returns (out: Loading, ghost image: Image)
    requires k.Valid() && p.pageDir == 0 && k.Accounted(p) && Loadable(file)
    modifies k`mem, k.pmm.Frame(), p`memPages, p`pageDir, p`entry, p`kernelStack, p`userStack
    ensures out == ElfEnding(Free(k, old(Now(k))), file)
    ensures p.pageDir == 0 ==> out == Refused && k.Valid() && k.Accounted(p) && Now(k) == old(Now(k))
    ensures p.pageDir != 0 && out != Remapped ==> InProgress(k, p, old(Now(k)), image)
    ensures out == Loaded ==>
      && p.pageDir != 0 && image == ProgramImage(file) && k.KernelShared(k.mem, p.pageDir)
      && p.entry == EntryPoint(file) && p.kernelStack == KERNEL_STACK && p.userStack == USER_STACK
  {
    ghost var s0 := Now(k);
    image := map[];
    var ok := NewDirectory(k, p);
    if ok {
      ProgressWeight(k, p, s0, map[]);
      out, image := FillSpace(k, p, file, s0);
    } else {
      out := Refused;
      ExhaustedCount(k.pmm.total, k.pmm.part);
      ElfEndingIs(0, file);
    }
  }

  /** A process that holds an image has had as many free pages as this takes. */
  lemma ProgressWeight(k: Machine, p: Process, s0: Moment, image: Image)
    requires InProgress(k, p, s0, image)
    ensures !Short(k.pmm.total, s0.part, image.Keys)
  {
    Opened(k, p, s0, image);
    k.pmm.Open();
    BuildingMeans(s0, Now(k), p.pageDir, image);
    TakenWeight(k.pmm.total, s0.part, k.pmm.part, k.mem, p.pageDir, image);
  }

  /** The user reaches exactly the pages that are for the user, through both levels of the tables. */
  lemma UserReachesProgram(k: Machine, p: Process, s0: Moment, image: Image, v: nat)
    requires InProgress(k, p, s0, image) && v < USER_PAGES
    ensures UserReaches(k.mem, p.pageDir, v) <==> v in image && image[v].flags.user
  {
    Opened(k, p, s0, image);
    BuildingMeans(s0, Now(k), p.pageDir, image);
    UserReachesImage(k.mem, p.pageDir, image, v);
  }

  /** The user writes exactly the pages that are for the user and writable, through both levels of the tables. */
  lemma UserWritesProgram(k: Machine, p: Process, s0: Moment, image: Image, v: nat)
    requires InProgress(k, p, s0, image) && v < USER_PAGES
    ensures UserWrites(k.mem, p.pageDir, v) <==> v in image && image[v].flags.user && image[v].flags.writable
  {
    Opened(k, p, s0, image);
    BuildingMeans(s0, Now(k), p.pageDir, image);
    UserWritesImage(k.mem, p.pageDir, image, v);
  }

  /** Every address of a loaded segment is the user's to read and to write. */
  lemma SegmentIsUsers(k: Machine, p: Process, s0: Moment, file: seq<Byte>, i: nat, a: nat)
    requires |file| >= ELF_HEADER_SIZE && InProgress(k, p, s0, ProgramImage(file)) && i < |ProgHeaders(file)|
    requires MappedOnce(ProgHeaders(file)) && ProgHeaders(file)[i].Loaded() && ProgHeaders(file)[i].Placed()
    requires ProgHeaders(file)[i].vaddr <= a < ProgHeaders(file)[i].vaddr + ProgHeaders(file)[i].memsz
    ensures UserWrites(k.mem, p.pageDir, a / PAGE_SIZE)
  {
    var headers, v := ProgHeaders(file), a / PAGE_SIZE;
    WithSegmentsKeeps(file, headers, i, v);
    assert headers[i].Touches(v);
    UserWritesProgram(k, p, s0, ProgramImage(file), v);
  }

  /** Below the tops of the stacks are their pages: the user may write the user's, and not reach the kernel's. */
  lemma StackAccess(k: Machine, p: Process, s0: Moment, file: seq<Byte>)
    requires |file| >= ELF_HEADER_SIZE && InProgress(k, p, s0, ProgramImage(file))
    ensures !UserReaches(k.mem, p.pageDir, (0xBFFF_0000 - 1) / PAGE_SIZE) && KERNEL_STACK == 0xBFFF_0000
    ensures UserWrites(k.mem, p.pageDir, (0xBFC0_0000 - 1) / PAGE_SIZE) && USER_STACK == 0xBFC0_0000
  {
    assert KERNEL_STACK_PAGE == (0xBFFF_0000 - 1) / PAGE_SIZE && USER_STACK_PAGE == (0xBFC0_0000 - 1) / PAGE_SIZE;
    UserReachesProgram(k, p, s0, ProgramImage(file), KERNEL_STACK_PAGE);
    UserWritesProgram(k, p, s0, ProgramImage(file), USER_STACK_PAGE);
  }

  /** A file put together from segments: at each address of a segment the process has its content, and may write. */
  lemma BuiltMemory(k: Machine, p: Process, s0: Moment, file: seq<Byte>, entry: nat, segments: seq<Segment>, i: nat,
                    a: nat)
    requires LaidOut(file, entry, segments) && PagesApart(segments)
    requires InProgress(k, p, s0, ProgramImage(file))
    requires i < |segments| && segments[i].Loaded()
    requires segments[i].vaddr <= a < segments[i].vaddr + segments[i].memsz && a < KERNEL_BASE
    ensures UserWrites(k.mem, p.pageDir, a / PAGE_SIZE)
    ensures InMemory(k.mem, p.pageDir, a, OrZero(segments[i].content, a - segments[i].vaddr))
  {
    BuiltByte(file, entry, segments, i, a);
    ByteInMemory(k, p, s0, ProgramImage(file), a, OrZero(segments[i].content, a - segments[i].vaddr));
  }

  /** The byte at a user's address, by way of the tables. */
  ghost predicate InMemory(mem: Memory, dir: nat, a: nat, b: Byte) {
    var frame := Translate(mem, dir, a / PAGE_SIZE).frame;
    && frame in mem && mem[frame].Data? && |mem[frame].bytes| == PAGE_SIZE && mem[frame].bytes[a % PAGE_SIZE] == b
  }

  lemma ByteInMemory(k: Machine, p: Process, s0: Moment, image: Image, a: nat, b: Byte)
    requires InProgress(k, p, s0, image) && a < KERNEL_BASE && ByteAt(image, a) == UserByte(b)
    ensures UserWrites(k.mem, p.pageDir, a / PAGE_SIZE) && InMemory(k.mem, p.pageDir, a, b)
  {
    UserWritesProgram(k, p, s0, image, a / PAGE_SIZE);
    Opened(k, p, s0, image);
    BuildingMeans(s0, Now(k), p.pageDir, image);
    ByteHeld(k.mem, p.pageDir, image, a, b);
  }

  lemma ByteHeld(mem: Memory, dir: nat, image: Image, a: nat, b: Byte)
    requires HoldsImage(mem, dir, image) && a < KERNEL_BASE && ByteAt(image, a) == UserByte(b)
    ensures InMemory(mem, dir, a, b)
  {
    var v := a / PAGE_SIZE;
    assert PageHolds(mem, dir, v, image);
    assert Contents(mem, dir, v) == image[v].content;
  }

  /** vmm_alloc_vaddr_space for a process without an address space, with its page count. */
  method NewDirectory(k: Machine, p: Process) returns (ok: bool)
    requires k.Valid() && p.pageDir == 0 && k.Accounted(p)
    modifies k`mem, k.pmm.Frame(), p`memPages, p`pageDir
    ensures !ok ==> p.pageDir == 0 && k.Valid() && k.Accounted(p) && Now(k) == old(Now(k))
    ensures ok ==> p.pageDir != 0 && InProgress(k, p, old(Now(k)), map[])
    ensures !ok ==> Exhausted(k.pmm.part)
  {
    ghost var s0 := Now(k);
    k.pmm.Open();
    var dir := k.AllocTable();
    ok := dir != 0;
    if ok {
      NewBuilding(s0, Now(k), dir);
      EnterDirectory(k, p, dir, s0);
    }
  }

  method EnterDirectory(k: Machine, p: Process, dir: nat, ghost s0: Moment)
    requires k.Valid() && p !in k.pmm.Frame() && p.memPages == 0 && dir != 0
    requires k.OwnsSpace(dir) && |Frames(k.mem, dir)| == 1 && Building(s0, Now(k), dir, map[])
    requires Tallied(k.mem, dir, map[]) && Good(k.pmm.total, s0.part)
    modifies p`memPages, p`pageDir
    ensures p.pageDir == dir && InProgress(k, p, s0, map[])
  {
    p.pageDir, p.memPages := dir, p.memPages + 1;
    assert InProgressBody(k, p, s0, map[]);
  }

  method FillSpace(k: Machine, p: Process, file: seq<Byte>, ghost s0: Moment) returns (out: Loading, ghost image: Image)
    requires InProgress(k, p, s0, map[]) && Loadable(file) && Free(k, s0) > 0
    modifies k`mem, k.pmm.Frame(), p`memPages, p`entry, p`kernelStack, p`userStack
    ensures out == ElfEnding(Free(k, s0), file)
    ensures out != Remapped ==> InProgress(k, p, s0, image)
    ensures out == Loaded ==>
      && image == ProgramImage(file) && k.KernelShared(k.mem, p.pageDir)
      && p.entry == EntryPoint(file) && p.kernelStack == KERNEL_STACK && p.userStack == USER_STACK
  {
    out, image := LoadProgram(k, p, file, s0);
    if out == Loaded {
      out, image := FillStacks(k, p, s0, image);
    }
  }

  method FillStacks(k: Machine, p: Process, ghost s0: Moment, ghost image: Image)
    returns (out: Loading, ghost image': Image)
    requires InProgress(k, p, s0, image) && !HasKernelStack(image)
    modifies k`mem, k.pmm.Frame(), p`memPages, p`kernelStack, p`userStack
    ensures out == Ending(Free(k, s0), image.Keys, StackAttempts())
    ensures out != Remapped ==> InProgress(k, p, s0, image')
    ensures out == Loaded ==>
      && image' == WithStacks(image) && k.KernelShared(k.mem, p.pageDir)
      && p.kernelStack == KERNEL_STACK && p.userStack == USER_STACK
  {
    out, image' := AllocStacks(k, p, s0, image);
    if out == Loaded {
      ShareKernel(k, p, s0, image');
    }
  }

  lemma EndsBeforeStacks(free: nat, file: seq<Byte>)
    requires |file| >= ELF_HEADER_SIZE && free > 0
    ensures !HeaderAccepted(file) ==> ElfEnding(free, file) == Refused
    ensures var table := Ending(free, {}, TableAttempts(ProgHeaders(file), |file|));
            HeaderAccepted(file) && table != Loaded ==> ElfEnding(free, file) == table
  {
    var table := TableAttempts(ProgHeaders(file), |file|);
    ElfEndingIs(free, file);
    EndingThen(free, {}, table, StackAttempts());
    EndingIs(free, {}, table + StackAttempts());
  }

  lemma TableThenStacks(free: nat, image: Image, file: seq<Byte>)
    requires |file| >= ELF_HEADER_SIZE && HeaderAccepted(file) && free > 0 && IsSegments(image, file, ProgHeaders(file))
    requires Ending(free, {}, TableAttempts(ProgHeaders(file), |file|)) == Loaded
    ensures ElfEnding(free, file) == Ending(free, image.Keys, StackAttempts())
    ensures !HasKernelStack(image) && WithStacks(image) == ProgramImage(file)
  {
    var headers := ProgHeaders(file);
    var table := TableAttempts(headers, |file|);
    SegmentsMean(image, file, headers);
    SegmentsForUser(file, headers);
    TableTried(free, file);
    ElfEndingIs(free, file);
    EndingThen(free, {}, table, StackAttempts());
    EndingIs(free, {}, table + StackAttempts());
    forall v: nat
      ensures v in PagesOf(table) <==> v in image
    {
      TablePages(headers, |file|, v);
      WithSegmentsAt(file, headers, v);
    }
    assert {} + PagesOf(table) == image.Keys;
  }

  lemma TableTried(free: nat, file: seq<Byte>)
    requires |file| >= ELF_HEADER_SIZE && free > 0
    requires Ending(free, {}, TableAttempts(ProgHeaders(file), |file|)) == Loaded
    ensures AllAccepted(ProgHeaders(file), |file|)
  {
    var table := TableAttempts(ProgHeaders(file), |file|);
    WeightOfNothing();
    EndingIs(free, {}, table);
    LoadsExactly(free, table);
    TableRejects(ProgHeaders(file), |file|);
  }

  method ShareKernel(k: Machine, p: Process, ghost s0: Moment, ghost image: Image)
    requires InProgress(k, p, s0, image)
    modifies k`mem
    ensures InProgress(k, p, s0, image) && k.KernelShared(k.mem, p.pageDir)
  {
    ghost var s := Now(k);
    Opened(k, p, s0, image);
    k.CopyKernelSpace(p.pageDir);
    KernelHalfHolds(s0, s, k.mem, p.pageDir, image);
    TalliedSame(s.mem, k.mem, p.pageDir, image, image);
    assert InProgressBody(k, p, s0, image);
  }
}
