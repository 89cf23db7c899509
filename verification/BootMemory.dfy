/** Building the page allocator from the memory map that the boot loader hands over. */
module BootMemory {
  import opened Units
  import opened Alignment
  import opened BuddyPartition
  import opened PageAllocator
  import QuickSort

  const ADDRESS_LIMIT: nat := 0x1_0000_0000
  const KERNEL_STACK_PAGES: nat := 16
  const KERNEL_START_PAGE: nat := 256

  /** Types 1 (normal) and 3 (ACPI reclaimable) are memory the kernel may use. */
  datatype Entry = Entry(base: nat, length: nat, kind: nat) {
    predicate Usable() {
      kind == 1 || kind == 3
    }

    function End(): nat {
      base + length
    }
  }

  function CompareEntries(left: Entry, right: Entry): int {
    if left.base < right.base then -1 else if left.base == right.base then 0 else 1
  }

  lemma CompareIsConsistent()
    ensures QuickSort.Consistent(CompareEntries)
  {
  }

  /** ALIGN_PAGE: rounds up in 32-bit arithmetic. */
  function AlignPage(address: nat): nat {
    (address + PAGE_SIZE - 1) % ADDRESS_LIMIT / PAGE_SIZE * PAGE_SIZE
  }

  /** Rounding up works exactly up to the start of the last page; above it the result wraps to 0. */
  lemma AlignPageWraps(address: nat)
    requires address < ADDRESS_LIMIT
    ensures AlignPage(address) >= address <==> address <= ADDRESS_LIMIT - PAGE_SIZE
    ensures address <= ADDRESS_LIMIT - PAGE_SIZE ==>
      AlignPage(address) % PAGE_SIZE == 0 && AlignPage(address) < address + PAGE_SIZE
    ensures address > ADDRESS_LIMIT - PAGE_SIZE ==> AlignPage(address) == 0
  {
  }

  /** Page `p` lies wholly inside the region. */
  ghost predicate InRegion(e: Entry, p: nat) {
    e.Usable() && e.base <= p * PAGE_SIZE && (p + 1) * PAGE_SIZE <= e.End()
  }

  /** The loop over the region comes to page `p`: it starts at the base rounded up. */
  ghost predicate Swept(e: Entry, p: nat) {
    e.Usable() && AlignPage(e.base) <= p * PAGE_SIZE && (p + 1) * PAGE_SIZE <= e.End()
  }

  /** The loop stays inside the region exactly if this does not start in the last page of memory. */
  lemma SweepsRegion(e: Entry)
    requires e.Usable() && e.base < ADDRESS_LIMIT
    ensures (forall p: nat :: Swept(e, p) <==> InRegion(e, p)) <==> e.base <= ADDRESS_LIMIT - PAGE_SIZE
  {
    AlignPageWraps(e.base);
    if e.base > ADDRESS_LIMIT - PAGE_SIZE {
      assert Swept(e, 0) && !InRegion(e, 0);
    }
  }

  /** A region without a whole page, at the end of memory, for which the loop comes to every page there is. */
  lemma SweepsAll()
    ensures var e := Entry(0xFFFF_F001, 0xFFF, 1);
            && e.End() == ADDRESS_LIMIT && forall p: nat ::
                !InRegion(e, p) && (Swept(e, p) <==> (p + 1) * PAGE_SIZE <= ADDRESS_LIMIT)
  {
    AlignPageWraps(0xFFFF_F001);
  }

  ghost predicate Apart(d: Entry, e: Entry) {
    d.End() <= e.base || e.End() <= d.base
  }

  /** If usable, a region of 32-bit memory; `SweepsRegion` says why it must not start in the last page. */
  ghost predicate WellFormedEntry(e: Entry) {
    e.Usable() ==> e.base <= ADDRESS_LIMIT - PAGE_SIZE && e.End() <= ADDRESS_LIMIT
  }

  ghost predicate AllApart(entries: seq<Entry>) {
    forall i, j :: 0 <= i < j < |entries| && entries[i].Usable() && entries[j].Usable() ==>
      Apart(entries[i], entries[j])
  }

  /** The usable regions are in 32-bit memory and do not overlap; of the others nothing is asked. */
  ghost predicate WellFormedMap(entries: seq<Entry>) {
    && (forall i :: 0 <= i < |entries| ==> WellFormedEntry(entries[i]))
    && AllApart(entries)
  }

  ghost predicate ByBase(entries: seq<Entry>) {
    forall i, j :: 0 <= i < j < |entries| ==> entries[i].base <= entries[j].base
  }

  /** Is the page in one of the first `n` regions? */
  ghost predicate InMap(entries: seq<Entry>, n: nat, p: nat) {
    exists i :: 0 <= i < n && i < |entries| && InRegion(entries[i], p)
  }

  // ----- the end of memory

  function LastUsable(entries: seq<Entry>): (i: int)
    ensures -1 <= i < |entries| && (i >= 0 ==> entries[i].Usable())
    ensures forall j :: i < j < |entries| ==> !entries[j].Usable()
  {
    if entries == [] then -1
    else if entries[|entries| - 1].Usable() then |entries| - 1
    else LastUsable(entries[..|entries| - 1])
  }

  function LastEnd(entries: seq<Entry>): nat {
    if LastUsable(entries) == -1 then 0 else entries[LastUsable(entries)].End()
  }

  /** No usable region ends behind `end`. */
  ghost predicate Covers(entries: seq<Entry>, end: nat) {
    forall i :: 0 <= i < |entries| && entries[i].Usable() ==> entries[i].End() <= end
  }

  /** The last usable region is not empty, or none of those that start where it does has a byte. */
  predicate ShowsEnd(entries: seq<Entry>) {
    var i := LastUsable(entries);
    i >= 0 && entries[i].length == 0 ==>
      forall j :: 0 <= j < |entries| && entries[j].Usable() && entries[j].base == entries[i].base ==>
        entries[j].length == 0
  }

  /** get_max_physical_address: the end of the last usable region of a sorted map. */
  method GetMaxPhysicalAddress(entries: array<Entry>) returns (end: nat)
    ensures end == LastEnd(entries[..])
  {
    end := 0;
    var i := entries.Length;
    assert entries[..i] == entries[..];
    while i > 0
      invariant 0 <= i <= entries.Length && end == 0 && LastEnd(entries[..]) == LastEnd(entries[..i])
    {
      assert entries[..i][..i - 1] == entries[..i - 1];
      if entries[i - 1].Usable() {
        end := entries[i - 1].base + entries[i - 1].length;
        break;
      }
      i := i - 1;
    }
  }

  /** Of a sorted map without overlaps, the last end is the end of memory exactly if the map shows it. */
  lemma LastEndCovers(entries: seq<Entry>)
    requires AllApart(entries) && ByBase(entries)
    ensures Covers(entries, LastEnd(entries)) <==> ShowsEnd(entries)
  {
    var i := LastUsable(entries);
    forall j | 0 <= j < i && entries[j].Usable()
      ensures entries[j].End() <= entries[i].End() <==>
              entries[j].length == 0 || entries[i].length > 0 || entries[j].base < entries[i].base
    {
      assert Apart(entries[j], entries[i]);
    }
  }

  /**
   An empty region may hide the memory of another that starts where it does: sorted by base, the map below
   ends with an empty region, the end of which is taken for the end of memory, in front of page 256.
   */
  lemma EmptyRegionHidesMemory()
    ensures var entries := [Entry(0x100000, 0x100000, 1), Entry(0x100000, 0, 1)];
            && WellFormedMap(entries) && ByBase(entries) && LastEnd(entries) == 0x100000
            && InMap(entries, 2, 256) && 256 >= LastEnd(entries) / PAGE_SIZE && !Covers(entries, LastEnd(entries))
  {
    var entries := [Entry(0x100000, 0x100000, 1), Entry(0x100000, 0, 1)];
    assert LastUsable(entries) == 1;
    assert entries[0].Usable() && InRegion(entries[0], 256);
  }

  /** A region with bytes and one without start at the same address, and no usable region starts behind them. */
  ghost predicate Hides(entries: seq<Entry>, d: Entry, e: Entry) {
    && d in entries && e in entries && d.Usable() && e.Usable() && d.length == 0 && e.length > 0 && d.base == e.base
    && forall u :: u in entries && u.Usable() ==> u.base <= e.base
  }

  ghost predicate HidesEnd(entries: seq<Entry>) {
    exists d, e :: Hides(entries, d, e)
  }

  lemma ShowsUnlessHides(t: seq<Entry>)
    requires ByBase(t)
    ensures !ShowsEnd(t) ==> HidesEnd(t)
  {
    if !ShowsEnd(t) {
      var i := LastUsable(t);
      var j :| 0 <= j < |t| && t[j].Usable() && t[j].base == t[i].base && t[j].length > 0;
      forall u | u in t && u.Usable()
        ensures u.base <= t[j].base
      {
        var k :| 0 <= k < |t| && t[k] == u;
        assert k <= i;
      }
      assert Hides(t, t[i], t[j]);
    }
  }

  /**
   Sorting leaves open which of two regions with the same start comes last: the end shows in every order
   unless one hides it.
   */
  lemma EveryOrderShowsEnd(s: seq<Entry>)
    ensures !HidesEnd(s) <==> forall t :: multiset(t) == multiset(s) && ByBase(t) ==> ShowsEnd(t)
  {
    forall t | multiset(t) == multiset(s) && ByBase(t)
      ensures HidesEnd(t) <==> HidesEnd(s)
      ensures !HidesEnd(s) ==> ShowsEnd(t)
    {
      HidesInAnyOrder(s, t);
      HidesInAnyOrder(t, s);
      ShowsUnlessHides(t);
    }
    if HidesEnd(s) {
      var d, e :| Hides(s, d, e);
      var t := EmptyLast(s, d, e);
    }
  }

  lemma HidesInAnyOrder(s: seq<Entry>, t: seq<Entry>)
    requires multiset(t) == multiset(s)
    ensures HidesEnd(s) ==> HidesEnd(t)
  {
    forall u
      ensures u in s <==> u in t
    {
      assert u in s <==> u in multiset(s);
      assert u in t <==> u in multiset(t);
    }
    if HidesEnd(s) {
      var d, e :| Hides(s, d, e);
      assert Hides(t, d, e);
    }
  }

  /** A sorted order in which the empty region comes behind the other. */
  lemma EmptyLast(s: seq<Entry>, d: Entry, e: Entry) returns (t: seq<Entry>)
    requires Hides(s, d, e)
    ensures multiset(t) == multiset(s) && ByBase(t) && !ShowsEnd(t)
  {
    var i :| 0 <= i < |s| && s[i] == d;
    assert s == s[..i] + [d] + s[i + 1..];
    var r := SortedOrder(s[..i] + s[i + 1..]);
    var m := Behind(r, d.base);
    t := r[..m] + [d] + r[m..];
    Inserted(r, m, d);
    assert multiset(t) == multiset(s);
    NotBehind(s, t, m, d, e);
    assert t[m] == d;
  }

  /** Nothing usable comes behind the empty region, and the other one is in front of it. */
  lemma NotBehind(s: seq<Entry>, t: seq<Entry>, m: nat, d: Entry, e: Entry)
    requires Hides(s, d, e) && multiset(t) == multiset(s) && m < |t| && t[m] == d
    requires forall j :: m < j < |t| ==> t[j].base > d.base
    ensures LastUsable(t) == m && exists j :: 0 <= j < m && t[j] == e
  {
    forall u
      ensures u in t <==> u in s
    {
      assert u in multiset(t) <==> u in multiset(s);
    }
    forall j | m < j < |t|
      ensures !t[j].Usable()
    {
      assert t[j] in t;
    }
    LastOf(t, m);
    assert e in t;
  }

  lemma Inserted(r: seq<Entry>, m: nat, d: Entry)
    requires ByBase(r) && m <= |r|
    requires (forall j :: 0 <= j < m ==> r[j].base <= d.base) && forall j :: m <= j < |r| ==> r[j].base > d.base
    ensures var t := r[..m] + [d] + r[m..]; ByBase(t) && multiset(t) == multiset(r) + multiset{d}
  {
    assert r == r[..m] + r[m..];
  }

  lemma LastOf(t: seq<Entry>, m: nat)
    requires m < |t| && t[m].Usable() && forall j :: m < j < |t| ==> !t[j].Usable()
    ensures LastUsable(t) == m
  {
  }

  /** The position in front of which all regions start at `base` or before. */
  lemma {:induction false} Behind(r: seq<Entry>, base: nat) returns (m: nat)
    requires ByBase(r)
    ensures m <= |r| && (forall j :: 0 <= j < m ==> r[j].base <= base) && forall j :: m <= j < |r| ==> r[j].base > base
  {
    if r == [] || r[|r| - 1].base <= base {
      m := |r|;
    } else {
      m := Behind(r[..|r| - 1], base);
    }
  }

  lemma {:induction false} SortedOrder(s: seq<Entry>) returns (t: seq<Entry>)
    ensures multiset(t) == multiset(s) && ByBase(t)
  {
    if s == [] {
      t := [];
    } else {
      var r := SortedOrder(s[1..]);
      var m := Behind(r, s[0].base);
      t := r[..m] + [s[0]] + r[m..];
      Inserted(r, m, s[0]);
      assert s == [s[0]] + s[1..];
    }
  }

  /** Pages the boot code keeps for itself: the boot area, the kernel stack, the kernel image. */
  predicate Reserved(bootPages: nat, kernelEnd: nat, p: nat) {
    p < bootPages || p < KERNEL_STACK_PAGES || KERNEL_START_PAGE <= p < kernelEnd
  }

  /** Pages not yet free are blocks of their own, and their headers say which are reserved. */
  ghost predicate Prepared(m: Partition, pages: seq<Page>, bootPages: nat, kernelEnd: nat) {
    forall p: nat :: p < |pages| && !FreeAt(m, p) ==>
                       && p in Live(m) && Live(m)[p] == 0
                       && pages[p].locked == Reserved(bootPages, kernelEnd, p)
  }

  ghost predicate Booting(pmm: Pmm, bootPages: nat, kernelEnd: nat)
    reads pmm, pmm.pages
  {
    Prepared(pmm.part, pmm.pages[..], bootPages, kernelEnd)
  }

  lemma StaysPrepared(m0: Partition, m: Partition, pages0: seq<Page>, pages: seq<Page>, page: nat, bootPages: nat,
                      kernelEnd: nat)
    requires Prepared(m0, pages0, bootPages, kernelEnd) && |pages| == |pages0| && Live(m) == Live(m0) - {page}
    requires forall p: nat :: FreeAt(m, p) <==> FreeAt(m0, p) || p == page
    requires forall p: nat :: p < |pages| && !FreeAt(m, p) ==> pages[p] == pages0[p]
    ensures Prepared(m, pages, bootPages, kernelEnd)
  {
  }

  lemma ApartRegions(d: Entry, e: Entry, p: nat)
    requires d.Usable() && e.Usable() ==> Apart(d, e)
    ensures !(InRegion(d, p) && InRegion(e, p))
  {
  }

  /** From `m0` to `m`, the unreserved pages below page `n` that the loop comes to became free, and no others. */
  ghost predicate FreedBelow(m0: Partition, m: Partition, e: Entry, n: nat, bootPages: nat, kernelEnd: nat) {
    forall p: nat :: FreeAt(m, p) <==> FreeAt(m0, p) || (Swept(e, p) && p < n && !Reserved(bootPages, kernelEnd, p))
  }

  lemma FreedStep(m0: Partition, m: Partition, m': Partition, e: Entry, n: nat, bootPages: nat, kernelEnd: nat)
    requires FreedBelow(m0, m, e, n, bootPages, kernelEnd) && Swept(e, n)
    requires forall p: nat :: FreeAt(m', p) <==> FreeAt(m, p) || (p == n && !Reserved(bootPages, kernelEnd, n))
    ensures FreedBelow(m0, m', e, n + 1, bootPages, kernelEnd)
  {
    var n' := n + 1;
    forall p: nat
      ensures FreeAt(m', p) <==> FreeAt(m0, p) || (Swept(e, p) && p < n' && !Reserved(bootPages, kernelEnd, p))
    {
    }
  }

  /** Frees the pages of one region, as the inner loop of init_free_pages. */
  method FreeRegion(pmm: Pmm, e: Entry, ghost bootPages: nat, ghost kernelEnd: nat)
    requires pmm.Intact() && Booting(pmm, bootPages, kernelEnd)
    requires e.Usable() && e.base < ADDRESS_LIMIT && e.End() <= ADDRESS_LIMIT && e.End() / PAGE_SIZE <= pmm.total
    requires forall p: nat :: Swept(e, p) ==> !FreeAt(pmm.part, p)
    modifies pmm.Frame()
    ensures pmm.Intact() && Booting(pmm, bootPages, kernelEnd)
    ensures forall p: nat :: FreeAt(pmm.part, p) <==>
                               old(FreeAt(pmm.part, p)) || (Swept(e, p) && !Reserved(bootPages, kernelEnd, p))
  {
    ghost var part0 := pmm.part;
    var start := AlignPage(e.base);
    var end := e.base + e.length;
    ghost var first := FirstPage(e);
    ghost var n := first;
    while start + PAGE_SIZE <= end
      invariant start == n * PAGE_SIZE && first <= n
      invariant pmm.Intact() && Booting(pmm, bootPages, kernelEnd)
      invariant FreedBelow(part0, pmm.part, e, n, bootPages, kernelEnd)
    {
      PageNumber(n, end, pmm.total);
      var page := start % ADDRESS_LIMIT / PAGE_SIZE;
      FreeUnlocked(pmm, page, part0, e, bootPages, kernelEnd);
      start := start + PAGE_SIZE;
      n := n + 1;
    }
  }

  lemma PageNumber(n: nat, end: nat, total: nat)
    requires n * PAGE_SIZE + PAGE_SIZE <= end <= ADDRESS_LIMIT && end / PAGE_SIZE <= total
    ensures n * PAGE_SIZE % ADDRESS_LIMIT / PAGE_SIZE == n < total
  {
    assert n * PAGE_SIZE % ADDRESS_LIMIT == n * PAGE_SIZE;
  }

  /** The page at which the loop over a region starts. */
  lemma FirstPage(e: Entry) returns (n: nat)
    requires e.Usable() && e.base < ADDRESS_LIMIT
    ensures AlignPage(e.base) == n * PAGE_SIZE
    ensures forall p: nat :: Swept(e, p) <==> n <= p && p * PAGE_SIZE + PAGE_SIZE <= e.End()
  {
    AlignPageWraps(e.base);
    n := AlignPage(e.base) / PAGE_SIZE;
  }

  /** One round of the loop over the pages of a region. */
  method FreeUnlocked(pmm: Pmm, page: nat, ghost part0: Partition, ghost e: Entry, ghost bootPages: nat,
                      ghost kernelEnd: nat)
    requires pmm.Intact() && Booting(pmm, bootPages, kernelEnd) && page < pmm.total
    requires FreedBelow(part0, pmm.part, e, page, bootPages, kernelEnd) && Swept(e, page) && !FreeAt(part0, page)
    modifies pmm.Frame()
    ensures pmm.Intact() && Booting(pmm, bootPages, kernelEnd)
    ensures FreedBelow(part0, pmm.part, e, page + 1, bootPages, kernelEnd)
  {
    ghost var m := pmm.part;
    if !pmm.pages[page].locked {
      FreeOne(pmm, page, bootPages, kernelEnd);
    }
    FreedStep(part0, m, pmm.part, e, page, bootPages, kernelEnd);
  }

  method FreeOne(pmm: Pmm, page: nat, ghost bootPages: nat, ghost kernelEnd: nat)
    requires pmm.Intact() && Booting(pmm, bootPages, kernelEnd)
    requires page < pmm.total && !FreeAt(pmm.part, page) && !Reserved(bootPages, kernelEnd, page)
    modifies pmm.Frame()
    ensures pmm.Intact() && Booting(pmm, bootPages, kernelEnd)
    ensures forall p: nat :: FreeAt(pmm.part, p) <==> old(FreeAt(pmm.part, p)) || p == page
  {
    ghost var part0, pages0 := pmm.part, pmm.pages[..];
    pmm.FreeBlock(page, 0);
    pmm.Open();
    OneMoreFree(pmm.total, part0, pmm.part, page);
    StaysPrepared(part0, pmm.part, pages0, pmm.pages[..], page, bootPages, kernelEnd);
  }

  lemma OneMoreFree(total: nat, m0: Partition, m: Partition, page: nat)
    requires Tiling(total, m0) && Tiling(total, m) && FreePages(total, m) == FreePages(total, m0) + Run(page, 0)
    ensures forall p: nat :: FreeAt(m, p) <==> FreeAt(m0, p) || p == page
  {
    forall p: nat
      ensures FreeAt(m, p) <==> FreeAt(m0, p) || p == page
    {
      FreeInside(total, m0, p);
      FreeInside(total, m, p);
      assert p in Run(page, 0) <==> InRun(page, 0, p);
      assert p in FreePages(total, m) <==> p in FreePages(total, m0) || p in Run(page, 0);
    }
  }

  /** init_free_pages: the free pages are then exactly the unreserved whole pages of the usable regions. */
  method InitFreePages(pmm: Pmm, entries: array<Entry>, ghost bootPages: nat, ghost kernelEnd: nat)
    requires pmm.Intact() && Booting(pmm, bootPages, kernelEnd) && FreePages(pmm.total, pmm.part) == {}
    requires entries !in pmm.Frame() && WellFormedMap(entries[..])
    requires forall i :: 0 <= i < entries.Length && entries[i].Usable() ==> entries[i].End() / PAGE_SIZE <= pmm.total
    modifies pmm.Frame()
    ensures pmm.Intact()
    ensures forall p: nat :: FreeAt(pmm.part, p) <==>
                               InMap(entries[..], entries.Length, p) && !Reserved(bootPages, kernelEnd, p)
  {
    ghost var map0 := entries[..];
    NothingFree(pmm.total, pmm.part);
    var i := 0;
    while i < entries.Length
      invariant 0 <= i <= entries.Length && entries[..] == map0
      invariant pmm.Intact() && Booting(pmm, bootPages, kernelEnd)
      invariant forall p: nat :: FreeAt(pmm.part, p) <==> InMap(map0, i, p) && !Reserved(bootPages, kernelEnd, p)
    {
      RegionsAreNew(map0, i);
      if entries[i].Usable() {
        assert WellFormedEntry(map0[i]);
        SweepsRegion(entries[i]);
        FreeRegion(pmm, entries[i], bootPages, kernelEnd);
      }
      i := i + 1;
    }
  }

  lemma NothingFree(total: nat, m: Partition)
    requires Tiling(total, m) && FreePages(total, m) == {}
    ensures forall p: nat :: !FreeAt(m, p)
  {
    forall p: nat
      ensures !FreeAt(m, p)
    {
      FreeInside(total, m, p);
      assert p !in FreePages(total, m);
    }
  }

  /** No page of region `i` is in an earlier region. */
  lemma RegionsAreNew(entries: seq<Entry>, i: nat)
    requires i < |entries| && WellFormedMap(entries)
    ensures forall p: nat :: InRegion(entries[i], p) ==> !InMap(entries, i, p)
    ensures forall p: nat :: InMap(entries, i + 1, p) <==> InMap(entries, i, p) || InRegion(entries[i], p)
  {
    var n := i + 1;
    forall p: nat
      ensures InRegion(entries[i], p) ==> !InMap(entries, i, p)
      ensures InMap(entries, n, p) <==> InMap(entries, i, p) || InRegion(entries[i], p)
    {
      forall j | 0 <= j < i
        ensures !(InRegion(entries[j], p) && InRegion(entries[i], p))
      {
        ApartRegions(entries[j], entries[i], p);
      }
    }
  }

  // ----- sorting the map

  lemma SameMembers<T>(s: seq<T>, t: seq<T>)
    requires QuickSort.Permuted(s, t, 0, |s|)
    ensures multiset(s) == multiset(t)
    ensures forall e :: e in s <==> e in t
  {
    QuickSort.BagIsMultiset(s, 0, |s|);
    QuickSort.BagIsMultiset(t, 0, |s|);
    assert s[0..|s|] == s && t[0..|s|] == t;
    assert forall e :: e in s <==> e in multiset(s);
    assert forall e :: e in t <==> e in multiset(t);
  }

  lemma OtherOccurrence<T>(s: seq<T>, i: nat)
    requires i < |s| && multiset(s)[s[i]] >= 2
    ensures exists j :: 0 <= j < |s| && j != i && s[j] == s[i]
  {
    var r := s[..i] + s[i + 1..];
    assert s == s[..i] + [s[i]] + s[i + 1..];
    assert multiset(r)[s[i]] >= 1;
    assert s[i] in r;
    var k :| 0 <= k < |r| && r[k] == s[i];
    assert s[if k < i then k else k + 1] == s[i];
  }

  lemma TwoOccurrences<T>(s: seq<T>, i: nat, j: nat)
    requires i < j < |s| && s[i] == s[j]
    ensures multiset(s)[s[i]] >= 2
  {
    assert s == s[..i] + [s[i]] + s[i + 1..j] + [s[j]] + s[j + 1..];
  }

  lemma SortedMapWellFormed(s: seq<Entry>, t: seq<Entry>)
    requires WellFormedMap(s) && QuickSort.Permuted(s, t, 0, |s|)
    ensures WellFormedMap(t)
  {
    SameMembers(s, t);
    forall i | 0 <= i < |t|
      ensures WellFormedEntry(t[i])
    {
      assert t[i] in s;
    }
    forall i: nat, j: nat | i < j < |t| && t[i].Usable() && t[j].Usable()
      ensures Apart(t[i], t[j])
    {
      assert t[i] in s && t[j] in s;
      var k: nat :| k < |s| && s[k] == t[i];
      var l: nat :| l < |s| && s[l] == t[j];
      if t[i] == t[j] {
        TwoOccurrences(t, i, j);
        OtherOccurrence(s, k);
      }
    }
  }

  lemma SortedMapSameRegions(s: seq<Entry>, t: seq<Entry>, p: nat)
    requires QuickSort.Permuted(s, t, 0, |s|)
    ensures InMap(s, |s|, p) <==> InMap(t, |t|, p)
  {
    SameMembers(s, t);
    if i: nat :| i < |s| && InRegion(s[i], p) {
      assert s[i] in t;
      var j: nat :| j < |t| && t[j] == s[i];
    }
    if i: nat :| i < |t| && InRegion(t[i], p) {
      assert t[i] in s;
      var j: nat :| j < |s| && s[j] == t[i];
    }
  }

  // ----- which pages are free, in numbers

  /**
   What `Initialize` leaves free: whole pages of regions of the types 1 and 3, behind the boot area and the first
   64 KiB, and not between 1 MiB and the end of the kernel.
   */
  lemma FreeInNumbers(entries: seq<Entry>, bootPages: nat, kernelEnd: nat, p: nat)
    ensures InMap(entries, |entries|, p) && !Reserved(bootPages, kernelEnd, p) <==>
      && (exists i: nat :: i < |entries| && (entries[i].kind == 1 || entries[i].kind == 3)
                           && entries[i].base <= 4096 * p && 4096 * p + 4096 <= entries[i].base + entries[i].length)
      && p >= bootPages && 4096 * p >= 0x1_0000 && (4096 * p < 0x10_0000 || p >= kernelEnd)
  {
    if i: nat :| i < |entries| && InRegion(entries[i], p) {
      assert entries[i].base <= 4096 * p;
    }
    if i: nat :| i < |entries| && (entries[i].kind == 1 || entries[i].kind == 3)
                 && entries[i].base <= 4096 * p && 4096 * p + 4096 <= entries[i].base + entries[i].length {
      assert InRegion(entries[i], p);
    }
  }

  /** A page with an address in a region of another type, apart from those of the types 1 and 3, is not free. */
  lemma OtherTypesNotFree(entries: seq<Entry>, k: nat, a: nat)
    requires k < |entries| && entries[k].base <= a < entries[k].base + entries[k].length
    requires entries[k].kind == 2 || entries[k].kind == 4 || entries[k].kind == 5
    requires forall i :: 0 <= i < |entries| && (entries[i].kind == 1 || entries[i].kind == 3) ==>
      Apart(entries[i], entries[k])
    ensures !InMap(entries, |entries|, a / 4096)
  {
    assert 4096 * (a / 4096) <= a < 4096 * (a / 4096) + 4096;
    forall i: nat | i < |entries|
      ensures !InRegion(entries[i], a / 4096)
    {
      assert entries[i].Usable() ==> Apart(entries[i], entries[k]);
    }
  }

  // ----- the whole initialisation

  /** lock_boot_pages, lock_kernel_stack and lock_kernel_pages are this loop over their ranges. */
  method LockRange(pmm: Pmm, lo: nat, hi: nat)
    requires pmm.Intact() && hi <= pmm.total && forall p: nat :: p < pmm.total ==> p in Live(pmm.part)
    modifies pmm.pages
    ensures pmm.Intact()
    ensures forall p: nat :: p < pmm.total ==> pmm.pages[p].locked == (old(pmm.pages[p].locked) || lo <= p < hi)
  {
    var i := lo;
    while i < hi
      invariant lo <= i && pmm.Intact()
      invariant forall p: nat :: p < pmm.total ==> p in Live(pmm.part)
      invariant forall p: nat :: p < pmm.total ==> pmm.pages[p].locked == (old(pmm.pages[p].locked) || lo <= p < i)
      invariant i == lo || i <= hi
    {
      pmm.Lock(i);
      pmm.Open();
      i := i + 1;
    }
  }

  /** Some usable region reaches page number `n`. */
  ghost predicate Reaches(entries: seq<Entry>, n: nat) {
    exists i :: 0 <= i < |entries| && entries[i].Usable() && n <= entries[i].End() / PAGE_SIZE
  }

  /** init_pages, on a sorted map. */
  method InitPages(entries: array<Entry>, bootPages: nat, kernelEnd: nat) returns (pmm: Pmm)
    requires WellFormedMap(entries[..]) && ByBase(entries[..]) && ShowsEnd(entries[..])
    requires Reaches(entries[..], bootPages) && Reaches(entries[..], KERNEL_STACK_PAGES) &&
             Reaches(entries[..], kernelEnd)
    ensures fresh(pmm) && fresh(pmm.Frame()) && pmm.Intact()
    ensures forall p: nat :: FreeAt(pmm.part, p) <==>
                               InMap(entries[..], entries.Length, p) && !Reserved(bootPages, kernelEnd, p)
  {
    var end := GetMaxPhysicalAddress(entries);
    LastEndCovers(entries[..]);
    pmm := new Pmm(end / PAGE_SIZE);
    pmm.Open();
    ReachesBound(entries[..], bootPages, end);
    ReachesBound(entries[..], KERNEL_STACK_PAGES, end);
    ReachesBound(entries[..], kernelEnd, end);
    Untouched(pmm);
    LockReserved(pmm, bootPages, kernelEnd);
    InitFreePages(pmm, entries, bootPages, kernelEnd);
  }

  method LockReserved(pmm: Pmm, bootPages: nat, kernelEnd: nat)
    requires pmm.Intact() && forall p: nat :: p < pmm.total ==> p in Live(pmm.part)
    requires bootPages <= pmm.total && KERNEL_STACK_PAGES <= pmm.total && kernelEnd <= pmm.total
    requires forall p: nat :: p < pmm.total ==> !pmm.pages[p].locked
    modifies pmm.pages
    ensures pmm.Intact()
    ensures forall p: nat :: p < pmm.total ==> pmm.pages[p].locked == Reserved(bootPages, kernelEnd, p)
  {
    LockRange(pmm, 0, bootPages);
    LockRange(pmm, 0, KERNEL_STACK_PAGES);
    LockRange(pmm, KERNEL_START_PAGE, kernelEnd);
  }

  lemma ReachesBound(entries: seq<Entry>, n: nat, end: nat)
    requires Reaches(entries, n) && Covers(entries, end)
    ensures n <= end / PAGE_SIZE
  {
  }

  lemma Untouched(pmm: Pmm)
    requires pmm.Intact() && Live(pmm.part) == Live(AllLive(pmm.total))
    ensures forall p: nat :: p < pmm.total ==> p in Live(pmm.part) && Live(pmm.part)[p] == 0
    ensures FreePages(pmm.total, pmm.part) == {}
  {
    assert forall p: nat :: p < pmm.total ==> p in AllLive(pmm.total);
    forall p: nat | p < pmm.total
      ensures !FreeAt(pmm.part, p)
    {
      assert p in Live(pmm.part) && InRun(p, Live(pmm.part)[p], p);
      FreeIsNotLive(pmm.total, pmm.part, p);
    }
  }

  /**
   pmm_initialize. Whatever the order of the map, the pages then free are exactly the
   whole pages of its usable regions that are not reserved; page 0 is not among them.
   */
  method Initialize(entries: array<Entry>, bootPages: nat, kernelEnd: nat) returns (pmm: Pmm)
    requires WellFormedMap(entries[..]) && !HidesEnd(entries[..])
    requires Reaches(entries[..], bootPages) && Reaches(entries[..], KERNEL_STACK_PAGES) &&
             Reaches(entries[..], kernelEnd)
    modifies entries
    ensures fresh(pmm) && fresh(pmm.Frame()) && pmm.Valid()
    ensures ByBase(entries[..]) && multiset(entries[..]) == multiset(old(entries[..]))
    ensures forall p: nat :: FreeAt(pmm.part, p) <==>
                               InMap(old(entries[..]), entries.Length, p) && !Reserved(bootPages, kernelEnd, p)
    ensures !FreeAt(pmm.part, 0)
  {
    ghost var map0 := entries[..];
    CompareIsConsistent();
    QuickSort.QSort(entries, 0, entries.Length, CompareEntries);
    ghost var map1 := entries[..];
    SortedMapWellFormed(map0, map1);
    SameMembers(map0, map1);
    SortedByBase(map1);
    EveryOrderShowsEnd(map0);
    SortedMapReaches(map0, map1, bootPages);
    SortedMapReaches(map0, map1, KERNEL_STACK_PAGES);
    SortedMapReaches(map0, map1, kernelEnd);
    pmm := InitPages(entries, bootPages, kernelEnd);
    forall p: nat {
      SortedMapSameRegions(map0, map1, p);
    }
  }

  lemma SortedByBase(t: seq<Entry>)
    requires QuickSort.Sorted(t, 0, |t|, CompareEntries)
    ensures ByBase(t)
  {
    forall i: nat, j: nat | i < j < |t|
      ensures t[i].base <= t[j].base
    {
      assert QuickSort.InOrder(t, i, j, CompareEntries);
    }
  }

  lemma SortedMapReaches(s: seq<Entry>, t: seq<Entry>, n: nat)
    requires QuickSort.Permuted(s, t, 0, |s|) && Reaches(s, n)
    ensures Reaches(t, n)
  {
    SameMembers(s, t);
    var i: nat :| i < |s| && s[i].Usable() && n <= s[i].End() / PAGE_SIZE;
    assert s[i] in t;
    var j: nat :| j < |t| && t[j] == s[i];
  }
}
