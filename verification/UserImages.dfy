/** What a process finds in its user pages, and how an address space grows page by page. */
module UserImages {
  import opened BuddyPartition
  import opened FrameSums
  import opened AddressSpace
  import opened FrameOwnership

  /** A mapped page: its flags, and its contents (`Stale` where nothing is promised). */
  datatype Mapped = Mapped(flags: Flags, content: Frame)

  type Image = map<nat, Mapped>

  ghost predicate PageHolds(mem: Memory, dir: nat, v: nat, image: Image) {
    var e := Translate(mem, dir, v);
    if v in image then
      && !e.Empty() && e.flags == image[v].flags.(present := true)
      && Contents(mem, dir, v) == image[v].content
    else e.Empty()
  }

  /** The user pages that are mapped, their flags and their contents are those of the image. */
  ghost predicate HoldsImage(mem: Memory, dir: nat, image: Image) {
    && (forall v :: v in image ==> v < USER_PAGES)
    && forall v: nat :: v < USER_PAGES ==> PageHolds(mem, dir, v, image)
  }

  /** The contents of live single pages are as they were. */
  ghost predicate LiveKept(mem0: Memory, part0: Partition, mem: Memory) {
    forall f: nat :: f in mem0 && IsLive(part0, f, 0) ==> f in mem && mem[f] == mem0[f]
  }

  /** Memory and the allocator's blocks at one moment. */
  datatype Moment = Moment(mem: Memory, part: Partition)

  /** Keeps `Building` closed: what it says is in view only where a key is stated. */
  ghost predicate BuildKey(k: int) {
    true
  }

  /** Since `s0`, exactly the frames of the address space at `dir` were taken, and it holds `image`. */
  ghost predicate BuildingBody(s0: Moment, s: Moment, dir: nat, image: Image) {
    && SpaceOk(s.mem, dir) && Resident(s.mem, dir) && Owned(s.part, Frames(s.mem, dir))
    && Took(s0.part, s.part, Frames(s.mem, dir)) && LiveKept(s0.mem, s0.part, s.mem)
    && HoldsImage(s.mem, dir, image)
  }

  ghost predicate Building(s0: Moment, s: Moment, dir: nat, image: Image) {
    forall k {:trigger BuildKey(k)} :: BuildKey(k) ==> BuildingBody(s0, s, dir, image)
  }

  lemma BuildingMeans(s0: Moment, s: Moment, dir: nat, image: Image)
    requires Building(s0, s, dir, image)
    ensures BuildingBody(s0, s, dir, image)
  {
    assert BuildKey(0);
  }

  // ----- one more page

  lemma HoldsSame(mem: Memory, mem': Memory, dir: nat, image: Image)
    requires HoldsImage(mem, dir, image) && SameTranslation(mem, mem', dir)
    requires forall v: nat :: v < USER_PAGES ==> Contents(mem', dir, v) == Contents(mem, dir, v)
    ensures HoldsImage(mem', dir, image)
  {
    forall v: nat | v < USER_PAGES
      ensures PageHolds(mem', dir, v, image)
    {
      assert PageHolds(mem, dir, v, image);
    }
  }

  lemma ContentsOutside(mem: Memory, dir: nat, f: nat, x: Frame, v: nat)
    requires SpaceOk(mem, dir) && f !in Frames(mem, dir) && v < USER_PAGES && Resident(mem, dir)
    ensures Translate(mem[f := x], dir, v) == Translate(mem, dir, v)
    ensures Contents(mem[f := x], dir, v) == Contents(mem, dir, v)
  {
    var i := v / NUM_ENTRIES;
    assert TableOk(mem, mem[dir].entries[i]);
    WriteOutside(mem, dir, f, x);
    if !mem[dir].entries[i].Empty() {
      TableInFrames(mem, dir, i);
    }
    if !Translate(mem, dir, v).Empty() {
      MappedFrame(mem, dir, v);
    }
  }

  /** A frame just taken and filled is outside the address space. */
  lemma FrameFetched(s0: Moment, s: Moment, part1: Partition, dir: nat, image: Image, f: nat, x: Frame)
    requires Building(s0, s, dir, image) && Took(s.part, part1, multiset{f})
    ensures var mem1 := s.mem[f := x];
            && SpaceOk(mem1, dir) && Resident(mem1, dir) && Owned(part1, Frames(mem1, dir))
            && Frames(mem1, dir) == Frames(s.mem, dir) && f !in Frames(mem1, dir) && IsLive(part1, f, 0)
            && mem1[dir] == s.mem[dir] && HoldsImage(mem1, dir, image) && LiveKept(s0.mem, s0.part, mem1)
  {
    BuildingMeans(s0, s, dir, image);
    OwnedStays(s.part, part1, multiset{f}, Frames(s.mem, dir));
    TakenIsOwned(s.part, part1, multiset{f});
    assert f in multiset{f};
    WriteOutside(s.mem, dir, f, x);
    forall v: nat | v < USER_PAGES {
      ContentsOutside(s.mem, dir, f, x, v);
    }
    HoldsSame(s.mem, s.mem[f := x], dir, image);
    FetchedNotLive(s0, s, part1, dir, f);
  }

  lemma FetchedNotLive(s0: Moment, s: Moment, part1: Partition, dir: nat, f: nat)
    requires Took(s0.part, s.part, Frames(s.mem, dir)) && Took(s.part, part1, multiset{f})
    ensures !IsLive(s0.part, f, 0)
  {
    var single: nat := 0;
    assert f in multiset{f};
    assert IsLive(s0.part, f, single) ==> IsLive(s.part, f, single);
  }

  /** Giving the frame back leaves everything as it was before it was taken. */
  lemma FrameReturned(total: nat, s0: Moment, s: Moment, part1: Partition, part2: Partition, dir: nat, image: Image,
                      f: nat)
    requires Building(s0, s, dir, image) && Good(total, s.part) && Good(total, part2)
    requires Took(s.part, part1, multiset{f}) && Took(part2, part1, multiset{f})
    ensures part2 == s.part && Building(s0, Moment(s.mem[f := Stale], part2), dir, image)
    ensures Frames(s.mem[f := Stale], dir) == Frames(s.mem, dir)
  {
    TookAndReturned(total, s.part, part1, part2, multiset{f});
    FrameFetched(s0, s, part1, dir, image, f, Stale);
    BuildingMeans(s0, s, dir, image);
    assert BuildingBody(s0, Moment(s.mem[f := Stale], part2), dir, image);
  }

  /** Entering the frame adds its page to the image. */
  lemma PageEntered(s0: Moment, s: Moment, part1: Partition, s2: Moment, dir: nat, image: Image,
                    f: nat, x: Frame, page: nat, flags: Flags, tables: multiset<nat>)
    requires Building(s0, s, dir, image) && Took(s.part, part1, multiset{f}) && f != 0
    requires page < USER_PAGES && page !in image && Took(part1, s2.part, tables)
    requires SpaceOk(s2.mem, dir) && Resident(s2.mem, dir) && Owned(s2.part, Frames(s2.mem, dir))
    requires Frames(s2.mem, dir) == Frames(s.mem, dir) + tables + multiset{f}
    requires KeptBut(s.mem[f := x], s2.mem, {dir, TableOf(s2.mem, dir, page)})
    requires MapsOnly(s.mem[f := x], s2.mem, dir, page, MapEntry(f, flags))
    ensures Building(s0, s2, dir, image[page := Mapped(flags, x)])
    ensures Translate(s2.mem, dir, page).frame == f
  {
    FrameFetched(s0, s, part1, dir, image, f, x);
    BuildingMeans(s0, s, dir, image);
    var mem1 := s.mem[f := x];
    MapKeepsOthers(mem1, s2.mem, dir, page, MapEntry(f, flags));
    NewPageHolds(mem1, s2.mem, dir, image, f, page, flags, x);
    EnteredTook(s0, s, part1, s2, dir, f, tables);
    EnteredKept(s0, s.mem, mem1, s2, dir, page, f, x);
    assert BuildingBody(s0, s2, dir, image[page := Mapped(flags, x)]);
  }

  lemma EnteredTook(s0: Moment, s: Moment, part1: Partition, s2: Moment, dir: nat, f: nat, tables: multiset<nat>)
    requires Took(s0.part, s.part, Frames(s.mem, dir))
    requires Took(s.part, part1, multiset{f}) && Took(part1, s2.part, tables)
    requires Frames(s2.mem, dir) == Frames(s.mem, dir) + tables + multiset{f}
    ensures Took(s0.part, s2.part, Frames(s2.mem, dir))
  {
    TookMore(s0.part, s.part, part1, Frames(s.mem, dir), multiset{f});
    TookMore(s0.part, part1, s2.part, Frames(s.mem, dir) + multiset{f}, tables);
    assert Frames(s.mem, dir) + multiset{f} + tables == Frames(s2.mem, dir);
  }

  lemma EnteredKept(s0: Moment, mem: Memory, mem1: Memory, s2: Moment, dir: nat, page: nat, f: nat, x: Frame)
    requires LiveKept(s0.mem, s0.part, mem1) && SpaceOk(s2.mem, dir) && page < USER_PAGES
    requires Took(s0.part, s2.part, Frames(s2.mem, dir))
    requires KeptBut(mem1, s2.mem, {dir, TableOf(s2.mem, dir, page)})
    requires !Translate(s2.mem, dir, page).Empty()
    ensures LiveKept(s0.mem, s0.part, s2.mem)
  {
    assert TableOk(s2.mem, s2.mem[dir].entries[page / NUM_ENTRIES]);
    TableInFrames(s2.mem, dir, page / NUM_ENTRIES);
    assert dir in Frames(s2.mem, dir);
    forall g: nat | g in s0.mem && IsLive(s0.part, g, 0)
      ensures g != dir && g != TableOf(s2.mem, dir, page)
    {
    }
  }

  lemma NewPageHolds(mem1: Memory, mem2: Memory, dir: nat, image: Image, f: nat, page: nat, flags: Flags, x: Frame)
    requires HoldsImage(mem1, dir, image) && f != 0 && f in mem1 && mem1[f] == x && page < USER_PAGES && page !in image
    requires SpaceOk(mem2, dir)
    requires MapsOnly(mem1, mem2, dir, page, MapEntry(f, flags)) && OthersKept(mem1, mem2, dir, page)
    requires KeptBut(mem1, mem2, {dir, TableOf(mem2, dir, page)})
    ensures HoldsImage(mem2, dir, image[page := Mapped(flags, x)])
    ensures Translate(mem2, dir, page) == MapEntry(f, flags)
  {
    assert Translate(mem2, dir, page) == MapEntry(f, flags);
    MappedFrame(mem2, dir, page);
    var image' := image[page := Mapped(flags, x)];
    forall v: nat | v < USER_PAGES
      ensures PageHolds(mem2, dir, v, image')
    {
      assert PageHolds(mem1, dir, v, image);
    }
  }

  // ----- filling a page

  /** Writing to the frame of a mapped page changes that page of the image only. */
  lemma PageFilled(s0: Moment, s: Moment, dir: nat, image: Image, page: nat, y: Frame)
    requires Building(s0, s, dir, image) && page in image
    ensures var f := Translate(s.mem, dir, page).frame;
            var mem' := s.mem[f := y];
            && Building(s0, Moment(mem', s.part), dir, image[page := image[page].(content := y)])
            && SpaceOk(mem', dir) && Frames(mem', dir) == Frames(s.mem, dir) && Resident(mem', dir)
  {
    BuildingMeans(s0, s, dir, image);
    assert page < USER_PAGES && PageHolds(s.mem, dir, page, image);
    var f := Translate(s.mem, dir, page).frame;
    var mem' := s.mem[f := y];
    WriteMapped(s.mem, dir, page, y);
    MappedFrame(s.mem, dir, page);
    var image' := image[page := image[page].(content := y)];
    forall v: nat | v < USER_PAGES
      ensures PageHolds(mem', dir, v, image')
    {
      assert PageHolds(s.mem, dir, v, image);
      OtherContents(s.mem, dir, page, v, y);
    }
    assert BuildingBody(s0, Moment(mem', s.part), dir, image');
  }

  lemma OtherContents(mem: Memory, dir: nat, page: nat, v: nat, y: Frame)
    requires SpaceOk(mem, dir) && page < USER_PAGES && v < USER_PAGES && !Translate(mem, dir, page).Empty()
    ensures var mem' := mem[Translate(mem, dir, page).frame := y];
            && Translate(mem', dir, v) == Translate(mem, dir, v)
            && Contents(mem', dir, v) == if v == page then y else Contents(mem, dir, v)
  {
    var f := Translate(mem, dir, page).frame;
    WriteMapped(mem, dir, page, y);
    assert Translate(mem[f := y], dir, v) == Translate(mem, dir, v);
    if v != page && !Translate(mem, dir, v).Empty() {
      MappedApart(mem, dir, if v < page then v else page, if v < page then page else v);
    }
    ContentsWritten(mem, dir, v, f, y);
  }

  lemma ContentsWritten(mem: Memory, dir: nat, v: nat, f: nat, y: Frame)
    requires Translate(mem[f := y], dir, v) == Translate(mem, dir, v)
    ensures var e := Translate(mem, dir, v);
            Contents(mem[f := y], dir, v) == if !e.Empty() && e.frame == f then y else Contents(mem, dir, v)
  {
  }
}
