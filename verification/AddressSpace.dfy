/**
 Two-level address spaces in physical memory. Memory is a map from frame numbers
 to page contents; a directory or table entry is a frame number with flags, and
 frame 0 stands for no frame.
 */
module AddressSpace {
  import opened Bytes
  import opened FrameSums

  const NUM_ENTRIES: nat := 1024
  const KERNEL_PDE: nat := 768

  datatype Flags = Flags(present: bool, writable: bool, user: bool)

  const WRITABLE := Flags(false, true, false)
  const USER_WRITABLE := Flags(false, true, true)

  datatype Entry = Entry(frame: nat, flags: Flags) {
    predicate Empty() {
      frame == 0
    }
  }

  const NO_ENTRY := Entry(0, WRITABLE)

  datatype Frame = Table(entries: seq<Entry>) | Data(bytes: seq<Byte>) | Stale

  type Memory = map<nat, Frame>

  function EmptyTable(): Frame {
    Table(seq(NUM_ENTRIES, _ => NO_ENTRY))
  }

  /**
   What vmm_map_page_index and vmm_map_page_table_index enter: the frame's address, the flags, and the
   present bit.
   */
  function MapEntry(frame: nat, flags: Flags): Entry {
    Entry(frame, flags.(present := true))
  }

  ghost predicate IsTable(mem: Memory, f: nat) {
    f in mem && mem[f].Table? && |mem[f].entries| == NUM_ENTRIES
  }

  /** Entries are present exactly when they have a frame. */
  ghost predicate Consistent(entries: seq<Entry>, n: nat) {
    forall i :: 0 <= i < n && i < |entries| ==> entries[i].flags.present == !entries[i].Empty()
  }

  ghost predicate TableOk(mem: Memory, e: Entry) {
    e.Empty() || (IsTable(mem, e.frame) && Consistent(mem[e.frame].entries, NUM_ENTRIES))
  }

  /** The user half of a directory refers to well-formed page tables. */
  ghost predicate DirOk(mem: Memory, dir: nat) {
    && IsTable(mem, dir)
    && Consistent(mem[dir].entries, KERNEL_PDE)
    && forall i :: 0 <= i < KERNEL_PDE ==> TableOk(mem, mem[dir].entries[i])
  }

  // ----- the frames an address space owns

  ghost function OneFrame(e: Entry): multiset<nat> {
    if e.Empty() then multiset{} else multiset{e.frame}
  }

  /** What each entry of a page table contributes. */
  ghost function Pages(entries: seq<Entry>): seq<multiset<nat>> {
    seq(|entries|, i requires 0 <= i < |entries| => OneFrame(entries[i]))
  }

  /** A page table and the pages it maps. */
  ghost function TableFrames(mem: Memory, e: Entry): multiset<nat> {
    if e.Empty() || !IsTable(mem, e.frame) then multiset{}
    else Sum(Pages(mem[e.frame].entries), NUM_ENTRIES) + multiset{e.frame}
  }

  /** What each user entry of a directory contributes. */
  ghost function Tables(mem: Memory, entries: seq<Entry>): seq<multiset<nat>> {
    seq(|entries|, i requires 0 <= i < |entries| => TableFrames(mem, entries[i]))
  }

  /** Everything an address space owns: directory, user page tables, user pages. */
  ghost function Frames(mem: Memory, dir: nat): multiset<nat> {
    if !IsTable(mem, dir) then multiset{} else
    Sum(Tables(mem, mem[dir].entries), KERNEL_PDE) + multiset{dir}
  }

  /** Every frame the address space owns has contents. */
  ghost predicate Resident(mem: Memory, dir: nat) {
    forall f :: f in Frames(mem, dir) ==> f in mem
  }

  ghost predicate NoSharing(frames: multiset<nat>) {
    0 !in frames && forall f :: frames[f] <= 1
  }

  /** A well-formed address space, no frame of which is used twice. */
  ghost predicate SpaceOk(mem: Memory, dir: nat) {
    DirOk(mem, dir) && NoSharing(Frames(mem, dir))
  }

  // ----- where frames occur

  lemma TableInFrames(mem: Memory, dir: nat, i: nat)
    requires DirOk(mem, dir) && i < KERNEL_PDE && !mem[dir].entries[i].Empty()
    ensures mem[dir].entries[i].frame in Frames(mem, dir)
  {
    var d := mem[dir].entries;
    assert TableOk(mem, d[i]);
    SumOccurs(Tables(mem, d), KERNEL_PDE, i, d[i].frame);
  }

  lemma PageInFrames(mem: Memory, dir: nat, i: nat, j: nat)
    requires DirOk(mem, dir) && i < KERNEL_PDE && !mem[dir].entries[i].Empty()
    requires j < NUM_ENTRIES && TableOk(mem, mem[dir].entries[i]) && !mem[mem[dir].entries[i].frame].entries[j].Empty()
    ensures mem[mem[dir].entries[i].frame].entries[j].frame in Frames(mem, dir)
  {
    var d := mem[dir].entries;
    var t := mem[d[i].frame].entries;
    SumOccurs(Pages(t), NUM_ENTRIES, j, t[j].frame);
    SumOccurs(Tables(mem, d), KERNEL_PDE, i, t[j].frame);
  }

  /** A page table is no other entry's page table, and not the directory. */
  lemma TableIsOwn(mem: Memory, dir: nat, i: nat, j: nat)
    requires SpaceOk(mem, dir) && i < KERNEL_PDE && j < KERNEL_PDE && i != j
    requires !mem[dir].entries[i].Empty()
    ensures mem[dir].entries[i].frame != mem[dir].entries[j].frame
    ensures mem[dir].entries[i].frame != dir
  {
    var d := mem[dir].entries;
    var f := d[i].frame;
    assert TableOk(mem, d[i]) && TableOk(mem, d[j]);
    assert Frames(mem, dir)[f] <= 1;
    SumOccurs(Tables(mem, d), KERNEL_PDE, i, f);
    if d[i].frame == d[j].frame {
      SumTwoOccur(Tables(mem, d), KERNEL_PDE, if i < j then i else j, if i < j then j else i, f);
    }
  }

  // ----- what mapping adds

  lemma OneMore(frames: multiset<nat>, f: nat)
    requires NoSharing(frames) && f != 0 && f !in frames
    ensures NoSharing(frames + multiset{f})
  {
  }

  /** Entries that read the same tables contribute the same. */
  lemma TableFramesFrame(mem: Memory, mem': Memory, e: Entry)
    requires e.Empty() || (e.frame in mem && e.frame in mem' && mem'[e.frame] == mem[e.frame])
    ensures TableFrames(mem', e) == TableFrames(mem, e)
    ensures TableOk(mem, e) ==> TableOk(mem', e)
  {
  }

  /** Entering an empty page table for an empty directory entry. */
  function WithTable(mem: Memory, dir: nat, i: nat, tab: nat, flags: Flags): Memory
    requires IsTable(mem, dir) && i < NUM_ENTRIES
  {
    mem[tab := EmptyTable()][dir := Table(mem[dir].entries[i := MapEntry(tab, flags)])]
  }

  /** Entering a page in a page table. */
  function WithPage(mem: Memory, tab: nat, j: nat, page: nat, flags: Flags): Memory
    requires IsTable(mem, tab) && j < NUM_ENTRIES
  {
    mem[tab := Table(mem[tab].entries[j := MapEntry(page, flags)])]
  }

  lemma EmptyTableFrames(mem: Memory, e: Entry)
    requires !e.Empty() && e.frame in mem && mem[e.frame] == EmptyTable()
    ensures TableOk(mem, e) && TableFrames(mem, e) == multiset{e.frame}
  {
    SumEmpty(Pages(mem[e.frame].entries), NUM_ENTRIES);
  }

  /** A new page table leaves the other entries alone. */
  lemma OtherEntries(mem: Memory, dir: nat, i: nat, tab: nat, flags: Flags, k: nat)
    requires SpaceOk(mem, dir) && i < KERNEL_PDE && mem[dir].entries[i].Empty()
    requires tab != 0 && tab !in Frames(mem, dir) && tab != dir && k < KERNEL_PDE && k != i
    ensures var mem' := WithTable(mem, dir, i, tab, flags);
            && TableOk(mem', mem[dir].entries[k])
            && TableFrames(mem', mem[dir].entries[k]) == TableFrames(mem, mem[dir].entries[k])
  {
    var d := mem[dir].entries;
    assert TableOk(mem, d[k]);
    if !d[k].Empty() {
      TableInFrames(mem, dir, k);
      TableIsOwn(mem, dir, k, i);
    }
    TableFramesFrame(mem, WithTable(mem, dir, i, tab, flags), d[k]);
  }

  lemma AllOtherEntries(mem: Memory, mem': Memory, dir: nat, i: nat, tab: nat, flags: Flags)
    requires SpaceOk(mem, dir) && i < KERNEL_PDE && mem[dir].entries[i].Empty()
    requires tab != 0 && tab !in Frames(mem, dir) && tab != dir && mem' == WithTable(mem, dir, i, tab, flags)
    ensures forall k :: 0 <= k < KERNEL_PDE && k != i ==> TableOk(mem', mem'[dir].entries[k])
    ensures forall k :: 0 <= k < KERNEL_PDE && k != i ==>
              Tables(mem', mem'[dir].entries)[k] == Tables(mem, mem[dir].entries)[k]
  {
    forall k: nat | k < KERNEL_PDE && k != i
      ensures TableOk(mem', mem'[dir].entries[k])
      ensures TableFrames(mem', mem'[dir].entries[k]) == TableFrames(mem, mem[dir].entries[k])
    {
      OtherEntries(mem, dir, i, tab, flags, k);
    }
  }

  lemma AddTableFrames(mem: Memory, mem': Memory, dir: nat, i: nat, tab: nat, flags: Flags)
    requires SpaceOk(mem, dir) && i < KERNEL_PDE && mem[dir].entries[i].Empty()
    requires tab != 0 && tab !in Frames(mem, dir) && tab != dir && mem' == WithTable(mem, dir, i, tab, flags)
    ensures DirOk(mem', dir)
    ensures Sum(Tables(mem', mem'[dir].entries), KERNEL_PDE)
            == Sum(Tables(mem, mem[dir].entries), KERNEL_PDE) + multiset{tab}
  {
    AllOtherEntries(mem, mem', dir, i, tab, flags);
    EmptyTableFrames(mem', mem'[dir].entries[i]);
    SumGrows(Tables(mem, mem[dir].entries), Tables(mem', mem'[dir].entries), KERNEL_PDE, i, multiset{tab});
  }

  lemma AddTable(mem: Memory, dir: nat, i: nat, tab: nat, flags: Flags)
    requires SpaceOk(mem, dir) && i < KERNEL_PDE && mem[dir].entries[i].Empty()
    requires tab != 0 && tab !in Frames(mem, dir)
    ensures var mem' := WithTable(mem, dir, i, tab, flags);
            SpaceOk(mem', dir) && Frames(mem', dir) == Frames(mem, dir) + multiset{tab}
  {
    assert dir in Frames(mem, dir);
    AddTableFrames(mem, WithTable(mem, dir, i, tab, flags), dir, i, tab, flags);
    MoreFrames(mem, WithTable(mem, dir, i, tab, flags), dir, tab);
  }

  lemma MoreFrames(mem: Memory, mem': Memory, dir: nat, f: nat)
    requires SpaceOk(mem, dir) && DirOk(mem', dir) && f != 0 && f !in Frames(mem, dir)
    requires Sum(Tables(mem', mem'[dir].entries), KERNEL_PDE)
             == Sum(Tables(mem, mem[dir].entries), KERNEL_PDE) + multiset{f}
    ensures SpaceOk(mem', dir) && Frames(mem', dir) == Frames(mem, dir) + multiset{f}
  {
    OneMore(Frames(mem, dir), f);
    Reordered(Sum(Tables(mem, mem[dir].entries), KERNEL_PDE), f, dir);
  }

  lemma Reordered(s: multiset<nat>, a: nat, b: nat)
    ensures s + multiset{a} + multiset{b} == s + multiset{b} + multiset{a}
  {
  }

  lemma AddPageToTable(mem: Memory, e: Entry, j: nat, page: nat, flags: Flags)
    requires !e.Empty() && TableOk(mem, e) && j < NUM_ENTRIES && mem[e.frame].entries[j].Empty() && page != 0
    ensures var mem' := WithPage(mem, e.frame, j, page, flags);
            TableOk(mem', e) && TableFrames(mem', e) == TableFrames(mem, e) + multiset{page}
  {
    var mem' := WithPage(mem, e.frame, j, page, flags);
    SumGrows(Pages(mem[e.frame].entries), Pages(mem'[e.frame].entries), NUM_ENTRIES, j, multiset{page});
  }

  /** Rewriting one page table leaves the others alone. */
  lemma OtherTables(mem: Memory, dir: nat, i: nat, table: Frame)
    requires SpaceOk(mem, dir) && i < KERNEL_PDE && !mem[dir].entries[i].Empty()
    ensures var d := mem[dir].entries;
            var mem' := mem[d[i].frame := table];
            && dir in mem' && mem'[dir] == mem[dir]
            && forall k :: 0 <= k < KERNEL_PDE && k != i ==>
                 TableOk(mem', d[k]) && TableFrames(mem', d[k]) == TableFrames(mem, d[k])
  {
    var d := mem[dir].entries;
    TableIsOwn(mem, dir, i, if i == 0 then 1 else 0);
    forall k | 0 <= k < KERNEL_PDE && k != i
      ensures TableOk(mem[d[i].frame := table], d[k])
      ensures TableFrames(mem[d[i].frame := table], d[k]) == TableFrames(mem, d[k])
    {
      assert TableOk(mem, d[k]);
      TableIsOwn(mem, dir, i, k);
      TableFramesFrame(mem, mem[d[i].frame := table], d[k]);
    }
  }

  lemma AddPage(mem: Memory, dir: nat, i: nat, j: nat, page: nat, flags: Flags)
    requires SpaceOk(mem, dir) && i < KERNEL_PDE && !mem[dir].entries[i].Empty()
    requires TableOk(mem, mem[dir].entries[i])
    requires j < NUM_ENTRIES && mem[mem[dir].entries[i].frame].entries[j].Empty()
    requires page != 0 && page !in Frames(mem, dir)
    ensures var mem' := WithPage(mem, mem[dir].entries[i].frame, j, page, flags);
            SpaceOk(mem', dir) && Frames(mem', dir) == Frames(mem, dir) + multiset{page}
  {
    var d := mem[dir].entries;
    var mem' := WithPage(mem, d[i].frame, j, page, flags);
    OtherTables(mem, dir, i, mem'[d[i].frame]);
    AddPageToTable(mem, d[i], j, page, flags);
    SumGrows(Tables(mem, d), Tables(mem', d), KERNEL_PDE, i, multiset{page});
    assert DirOk(mem', dir);
    OneMore(Frames(mem, dir), page);
    assert Frames(mem', dir) == Frames(mem, dir) + multiset{page};
  }

  // ----- what leaves an address space alone

  ghost predicate Agree(mem: Memory, mem': Memory, frames: multiset<nat>) {
    forall f :: f in frames && f in mem ==> f in mem' && mem'[f] == mem[f]
  }

  /** An address space depends on nothing but the contents of its own frames. */
  lemma SpaceAgree(mem: Memory, mem': Memory, dir: nat)
    requires SpaceOk(mem, dir) && Agree(mem, mem', Frames(mem, dir))
    ensures SpaceOk(mem', dir) && Frames(mem', dir) == Frames(mem, dir)
    ensures mem'[dir] == mem[dir]
  {
    assert dir in Frames(mem, dir);
    var d := mem[dir].entries;
    forall k | 0 <= k < KERNEL_PDE
      ensures TableOk(mem', d[k]) && TableFrames(mem', d[k]) == TableFrames(mem, d[k])
    {
      assert TableOk(mem, d[k]);
      if !d[k].Empty() {
        TableInFrames(mem, dir, k);
      }
      TableFramesFrame(mem, mem', d[k]);
    }
    SumSame(Tables(mem, d), Tables(mem', d), KERNEL_PDE);
    assert Frames(mem', dir) == Frames(mem, dir);
  }

  lemma TableFramesInFrames(mem: Memory, dir: nat, i: nat, f: nat)
    requires DirOk(mem, dir) && i < KERNEL_PDE && f in TableFrames(mem, mem[dir].entries[i])
    ensures f in Frames(mem, dir)
  {
    SumOccurs(Tables(mem, mem[dir].entries), KERNEL_PDE, i, f);
  }

  /** Virtual page numbers of user space, and what they translate to. */
  const USER_PAGES: nat := KERNEL_PDE * NUM_ENTRIES

  ghost function Translate(mem: Memory, dir: nat, page: nat): Entry {
    if !IsTable(mem, dir) || page >= USER_PAGES then NO_ENTRY else
    var e := mem[dir].entries[page / NUM_ENTRIES];
    if e.Empty() || !IsTable(mem, e.frame) then NO_ENTRY else mem[e.frame].entries[page % NUM_ENTRIES]
  }

  /** The page table for a virtual page, or 0. */
  ghost function TableOf(mem: Memory, dir: nat, page: nat): nat {
    if !IsTable(mem, dir) || page >= USER_PAGES then 0 else mem[dir].entries[page / NUM_ENTRIES].frame
  }

  // ----- copies

  /** A page table entry and its copy: both empty, or equal flags and equal pages. */
  ghost predicate CopiedPage(mem: Memory, e: Entry, c: Entry) {
    && e.Empty() == c.Empty()
    && (!e.Empty() ==> c.flags == e.flags && e.frame in mem && c.frame in mem && mem[c.frame] == mem[e.frame])
  }

  ghost predicate CopiedPages(mem: Memory, t: seq<Entry>, c: seq<Entry>, n: nat) {
    n <= |t| && n <= |c| && forall j :: 0 <= j < n ==> CopiedPage(mem, t[j], c[j])
  }

  ghost predicate CopiedTable(mem: Memory, e: Entry, c: Entry) {
    && e.Empty() == c.Empty()
    && (!e.Empty() ==>
          && c.flags == e.flags && IsTable(mem, e.frame) && IsTable(mem, c.frame)
          && CopiedPages(mem, mem[e.frame].entries, mem[c.frame].entries, NUM_ENTRIES))
  }

  ghost predicate CopiedTables(mem: Memory, d: seq<Entry>, c: seq<Entry>, n: nat) {
    n <= |d| && n <= |c| && forall i :: 0 <= i < n ==> CopiedTable(mem, d[i], c[i])
  }

  lemma CopiedTableAgree(mem: Memory, mem': Memory, e: Entry, c: Entry)
    requires CopiedTable(mem, e, c)
    requires Agree(mem, mem', TableFrames(mem, e)) && Agree(mem, mem', TableFrames(mem, c))
    ensures CopiedTable(mem', e, c)
  {
    if !e.Empty() {
      var t, u := mem[e.frame].entries, mem[c.frame].entries;
      forall j: nat | j < NUM_ENTRIES
        ensures CopiedPage(mem', t[j], u[j])
      {
        assert CopiedPage(mem, t[j], u[j]);
        if !t[j].Empty() {
          SumOccurs(Pages(t), NUM_ENTRIES, j, t[j].frame);
          SumOccurs(Pages(u), NUM_ENTRIES, j, u[j].frame);
        }
      }
    }
  }

  /** A copied table has as many frames as the original. */
  lemma CopiedTableSize(mem: Memory, e: Entry, c: Entry)
    requires CopiedTable(mem, e, c)
    ensures |TableFrames(mem, c)| == |TableFrames(mem, e)|
  {
    if !e.Empty() {
      var t, u := mem[e.frame].entries, mem[c.frame].entries;
      forall j: nat | j < NUM_ENTRIES
        ensures |Pages(u)[j]| == |Pages(t)[j]|
      {
        assert CopiedPage(mem, t[j], u[j]);
      }
      SumSize(Pages(t), Pages(u), NUM_ENTRIES);
    }
  }

  /** A copied address space has as many frames as the original. */
  lemma CopiedSize(mem: Memory, dir: nat, copy: nat)
    requires IsTable(mem, dir) && IsTable(mem, copy)
    requires CopiedTables(mem, mem[dir].entries, mem[copy].entries, KERNEL_PDE)
    ensures |Frames(mem, copy)| == |Frames(mem, dir)|
  {
    var d, c := mem[dir].entries, mem[copy].entries;
    forall i: nat | i < KERNEL_PDE
      ensures |Tables(mem, c)[i]| == |Tables(mem, d)[i]|
    {
      CopiedTableSize(mem, d[i], c[i]);
    }
    SumSize(Tables(mem, d), Tables(mem, c), KERNEL_PDE);
  }

  /** In a copy, every user page translates to equal flags and equal contents. */
  lemma CopiedTranslates(mem: Memory, dir: nat, copy: nat, page: nat)
    requires DirOk(mem, dir) && DirOk(mem, copy) && page < USER_PAGES
    requires CopiedTables(mem, mem[dir].entries, mem[copy].entries, KERNEL_PDE)
    ensures CopiedPage(mem, Translate(mem, dir, page), Translate(mem, copy, page))
  {
    var i := page / NUM_ENTRIES;
    assert CopiedTable(mem, mem[dir].entries[i], mem[copy].entries[i]);
  }

  // ----- a fresh address space, and the kernel half

  lemma NewSpace(mem: Memory, dir: nat)
    requires dir != 0 && dir in mem && mem[dir] == EmptyTable()
    ensures SpaceOk(mem, dir) && Frames(mem, dir) == multiset{dir}
  {
    var d := mem[dir].entries;
    SumEmpty(Tables(mem, d), KERNEL_PDE);
    assert Frames(mem, dir) == multiset{dir};
  }

  /** Entries from `KERNEL_PDE` up play no part in what an address space owns. */
  lemma KernelHalf(mem: Memory, dir: nat, entries: seq<Entry>)
    requires SpaceOk(mem, dir) && |entries| == NUM_ENTRIES
    requires forall k :: 0 <= k < KERNEL_PDE ==> entries[k] == mem[dir].entries[k]
    ensures SpaceOk(mem[dir := Table(entries)], dir)
    ensures Frames(mem[dir := Table(entries)], dir) == Frames(mem, dir)
  {
    var d := mem[dir].entries;
    var mem' := mem[dir := Table(entries)];
    forall k | 0 <= k < KERNEL_PDE
      ensures TableOk(mem', entries[k]) && TableFrames(mem', entries[k]) == TableFrames(mem, d[k])
    {
      assert TableOk(mem, d[k]);
      if !d[k].Empty() {
        TableIsOwn(mem, dir, k, if k == 0 then 1 else 0);
      }
      TableFramesFrame(mem, mem', d[k]);
    }
    SumSame(Tables(mem, d), Tables(mem', entries), KERNEL_PDE);
    assert Frames(mem', dir) == Frames(mem, dir);
  }

  /** Mapped pages are neither page tables nor the directory. */
  lemma PageIsNoTable(mem: Memory, dir: nat, i: nat, j: nat, k: nat)
    requires SpaceOk(mem, dir) && i < KERNEL_PDE && k < KERNEL_PDE && j < NUM_ENTRIES
    requires TableOk(mem, mem[dir].entries[i]) && TableOk(mem, mem[dir].entries[k])
    requires !mem[dir].entries[i].Empty() && !mem[mem[dir].entries[i].frame].entries[j].Empty()
    ensures mem[mem[dir].entries[i].frame].entries[j].frame != dir
    ensures mem[mem[dir].entries[i].frame].entries[j].frame != mem[dir].entries[k].frame
  {
    var d := mem[dir].entries;
    var t := mem[d[i].frame].entries;
    SumOccurs(Pages(t), NUM_ENTRIES, j, t[j].frame);
    SumOccurs(Tables(mem, d), KERNEL_PDE, i, t[j].frame);
    if i == k {
      PageIsNotItsTable(mem, dir, i, j);
    } else if !d[k].Empty() {
      PageIsOwn(mem, dir, i, t[j].frame, k);
    }
    PageIsNotDir(mem, dir, i, t[j].frame);
  }

  lemma PageIsNotDir(mem: Memory, dir: nat, i: nat, f: nat)
    requires SpaceOk(mem, dir) && i < KERNEL_PDE && f in TableFrames(mem, mem[dir].entries[i])
    ensures f != dir
  {
    SumOccurs(Tables(mem, mem[dir].entries), KERNEL_PDE, i, f);
    assert Frames(mem, dir)[f] <= 1;
  }

  lemma PageIsNotItsTable(mem: Memory, dir: nat, i: nat, j: nat)
    requires SpaceOk(mem, dir) && i < KERNEL_PDE && j < NUM_ENTRIES
    requires TableOk(mem, mem[dir].entries[i]) && !mem[dir].entries[i].Empty()
    requires !mem[mem[dir].entries[i].frame].entries[j].Empty()
    ensures mem[mem[dir].entries[i].frame].entries[j].frame != mem[dir].entries[i].frame
  {
    var t := mem[mem[dir].entries[i].frame].entries;
    SumOccurs(Pages(t), NUM_ENTRIES, j, t[j].frame);
    SumOccurs(Tables(mem, mem[dir].entries), KERNEL_PDE, i, t[j].frame);
    assert Frames(mem, dir)[t[j].frame] <= 1;
  }

  /** A frame behind one page table is behind no other, nor one of them. */
  lemma PageIsOwn(mem: Memory, dir: nat, i: nat, f: nat, k: nat)
    requires SpaceOk(mem, dir) && i < KERNEL_PDE && k < KERNEL_PDE && i != k
    requires TableOk(mem, mem[dir].entries[k]) && !mem[dir].entries[k].Empty()
    requires f in TableFrames(mem, mem[dir].entries[i])
    ensures f != mem[dir].entries[k].frame
  {
    var d := mem[dir].entries;
    assert Frames(mem, dir)[f] <= 1;
    if f == d[k].frame {
      SumTwoOccur(Tables(mem, d), KERNEL_PDE, if i < k then i else k, if i < k then k else i, f);
    }
  }

  /** Mapping a page changes the translation of that page only. */
  lemma MapTranslates(mem: Memory, dir: nat, i: nat, j: nat, page: nat, flags: Flags, v: nat)
    requires SpaceOk(mem, dir) && i < KERNEL_PDE && j < NUM_ENTRIES && v < USER_PAGES
    requires TableOk(mem, mem[dir].entries[i]) && !mem[dir].entries[i].Empty()
    requires DirOk(WithPage(mem, mem[dir].entries[i].frame, j, page, flags), dir)
    ensures Translate(WithPage(mem, mem[dir].entries[i].frame, j, page, flags), dir, v) ==
            if v == i * NUM_ENTRIES + j then MapEntry(page, flags) else Translate(mem, dir, v)
  {
    TableIsOwn(mem, dir, i, if v / NUM_ENTRIES == i then (if i == 0 then 1 else 0) else v / NUM_ENTRIES);
  }

  /** An empty page table changes no translation. */
  lemma TableTranslates(mem: Memory, dir: nat, i: nat, tab: nat, flags: Flags, v: nat)
    requires SpaceOk(mem, dir) && i < KERNEL_PDE && mem[dir].entries[i].Empty() && v < USER_PAGES
    requires tab != 0 && tab !in Frames(mem, dir)
    requires DirOk(WithTable(mem, dir, i, tab, flags), dir)
    ensures Translate(WithTable(mem, dir, i, tab, flags), dir, v) == Translate(mem, dir, v)
  {
    var k := v / NUM_ENTRIES;
    assert TableOk(mem, mem[dir].entries[k]);
    if !mem[dir].entries[k].Empty() {
      TableInFrames(mem, dir, k);
      TableIsOwn(mem, dir, k, i);
    }
  }

  /** From `mem0` to `mem`, at most the translation of `page` changed, to `e`. */
  ghost predicate MapsOnly(mem0: Memory, mem: Memory, dir: nat, page: nat, e: Entry) {
    forall v: nat :: v < USER_PAGES ==> Translate(mem, dir, v) == if v == page then e else Translate(mem0, dir, v)
  }

  /** The directory has a table at `i`: the one it had, with its flags, or a new one, present and with these flags. */
  ghost predicate Opens(before: seq<Entry>, after: seq<Entry>, i: nat, flags: Flags) {
    && |before| == |after| == NUM_ENTRIES && i < KERNEL_PDE && !after[i].Empty()
    && (forall k :: 0 <= k < NUM_ENTRIES && k != i ==> after[k] == before[k])
    && (if before[i].Empty() then after[i].flags == flags.(present := true) else after[i] == before[i])
  }

  /** The page is mapped to the frame, with a new page table if there was none, and nothing else has changed. */
  ghost predicate PageMapped(mem0: Memory, mem: Memory, dir: nat, page: nat, frame: nat, flags: Flags,
                             tables: multiset<nat>) {
    && IsTable(mem0, dir) && IsTable(mem, dir) && page < USER_PAGES
    && Opens(mem0[dir].entries, mem[dir].entries, page / NUM_ENTRIES, flags)
    && |tables| == (if mem0[dir].entries[page / NUM_ENTRIES].Empty() then 1 else 0)
    && Frames(mem, dir) == Frames(mem0, dir) + tables + multiset{frame}
    && KeptBut(mem0, mem, {dir, TableOf(mem, dir, page)})
    && MapsOnly(mem0, mem, dir, page, MapEntry(frame, flags))
  }

  ghost predicate SameTranslation(mem0: Memory, mem: Memory, dir: nat) {
    forall v: nat :: v < USER_PAGES ==> Translate(mem, dir, v) == Translate(mem0, dir, v)
  }

  lemma MapsOnlyPage(mem: Memory, dir: nat, i: nat, j: nat, page: nat, flags: Flags)
    requires SpaceOk(mem, dir) && i < KERNEL_PDE && j < NUM_ENTRIES
    requires TableOk(mem, mem[dir].entries[i]) && !mem[dir].entries[i].Empty()
    requires DirOk(WithPage(mem, mem[dir].entries[i].frame, j, page, flags), dir)
    ensures MapsOnly(mem, WithPage(mem, mem[dir].entries[i].frame, j, page, flags), dir, i * NUM_ENTRIES + j,
                     MapEntry(page, flags))
  {
    forall v: nat | v < USER_PAGES {
      MapTranslates(mem, dir, i, j, page, flags, v);
    }
  }

  lemma SameWithTable(mem: Memory, dir: nat, i: nat, tab: nat, flags: Flags)
    requires SpaceOk(mem, dir) && i < KERNEL_PDE && mem[dir].entries[i].Empty()
    requires tab != 0 && tab !in Frames(mem, dir)
    requires DirOk(WithTable(mem, dir, i, tab, flags), dir)
    ensures SameTranslation(mem, WithTable(mem, dir, i, tab, flags), dir)
  {
    forall v: nat | v < USER_PAGES {
      TableTranslates(mem, dir, i, tab, flags, v);
    }
  }

  lemma SameThenMaps(mem0: Memory, mem1: Memory, mem2: Memory, dir: nat, page: nat, e: Entry)
    requires SameTranslation(mem0, mem1, dir) && MapsOnly(mem1, mem2, dir, page, e)
    ensures MapsOnly(mem0, mem2, dir, page, e)
  {
  }

  /** Nothing but the listed frames changed among those in memory before. */
  ghost predicate KeptBut(mem0: Memory, mem: Memory, changed: set<nat>) {
    forall f :: f in mem0 && f !in changed ==> f in mem && mem[f] == mem0[f]
  }

  /** Memory is as before but for the directory `c` and the frames `taken`. */
  ghost predicate KeptFor(mem0: Memory, mem: Memory, c: nat, taken: multiset<nat>) {
    forall f :: f in mem0 && f != c && f !in taken ==> f in mem && mem[f] == mem0[f]
  }

  /** Writing a frame that an address space does not own leaves the address space alone. */
  lemma WriteOutside(mem: Memory, dir: nat, f: nat, frame: Frame)
    requires SpaceOk(mem, dir) && f !in Frames(mem, dir)
    ensures SpaceOk(mem[f := frame], dir) && Frames(mem[f := frame], dir) == Frames(mem, dir)
    ensures mem[f := frame][dir] == mem[dir]
  {
    SpaceAgree(mem, mem[f := frame], dir);
  }

  /** The copied entries of a table stay copied when one more page is entered. */
  lemma CopiedStep(mem: Memory, t: seq<Entry>, c: nat, i: nat, j: nat, f: nat, flags: Flags)
    requires SpaceOk(mem, c) && i < KERNEL_PDE && j < NUM_ENTRIES && j < |t| && !mem[c].entries[i].Empty()
    requires TableOk(mem, mem[c].entries[i])
    requires f != 0 && f !in Frames(mem, c) && f != mem[c].entries[i].frame
    requires CopiedPages(mem, t, mem[mem[c].entries[i].frame].entries, j)
    requires forall k :: 0 <= k <= j ==> t[k].frame != f && t[k].frame != mem[c].entries[i].frame
    requires !t[j].Empty() && t[j].frame in mem && t[j].flags == flags.(present := true)
    ensures var tab := mem[c].entries[i].frame;
            var mem' := WithPage(mem[f := mem[t[j].frame]], tab, j, f, flags);
            CopiedPages(mem', t, mem'[tab].entries, j + 1)
  {
    var tab := mem[c].entries[i].frame;
    TableInFrames(mem, c, i);
    var mem' := WithPage(mem[f := mem[t[j].frame]], tab, j, f, flags);
    forall k: nat | k < j + 1
      ensures CopiedPage(mem', t[k], mem'[tab].entries[k])
    {
      if k < j {
        var u := mem[tab].entries[k];
        assert CopiedPage(mem, t[k], u);
        if !u.Empty() {
          PageIsNoTable(mem, c, i, k, i);
          PageInFrames(mem, c, i, k);
        }
      }
    }
  }

  /** Copied tables stay copied while memory outside them changes. */
  lemma CopiedTablesKept(mem: Memory, mem': Memory, dir: nat, c: nat, taken: multiset<nat>, n: nat)
    requires SpaceOk(mem, dir) && SpaceOk(mem, c) && n <= KERNEL_PDE
    requires CopiedTables(mem, mem[dir].entries, mem[c].entries, n)
    requires KeptFor(mem, mem', c, taken)
    requires taken !! Frames(mem, dir) && taken !! Frames(mem, c) && c !in Frames(mem, dir)
    requires IsTable(mem', c) && forall k :: 0 <= k < n ==> mem'[c].entries[k] == mem[c].entries[k]
    ensures dir in mem' && mem'[dir] == mem[dir]
    ensures CopiedTables(mem', mem'[dir].entries, mem'[c].entries, n)
  {
    var d, e := mem[dir].entries, mem[c].entries;
    assert dir in Frames(mem, dir);
    forall k: nat | k < n
      ensures CopiedTable(mem', d[k], e[k])
    {
      assert CopiedTable(mem, d[k], e[k]);
      forall f | f in TableFrames(mem, d[k])
        ensures f in Frames(mem, dir)
      {
        TableFramesInFrames(mem, dir, k, f);
      }
      OwnTables(mem, c, k);
      CopiedTableAgree(mem, mem', d[k], e[k]);
    }
  }

  lemma OwnTables(mem: Memory, dir: nat, k: nat)
    requires SpaceOk(mem, dir) && k < KERNEL_PDE
    ensures forall f :: f in TableFrames(mem, mem[dir].entries[k]) ==> f in Frames(mem, dir) && f != dir
  {
    var parts := Tables(mem, mem[dir].entries);
    forall f | f in TableFrames(mem, mem[dir].entries[k])
      ensures f in Frames(mem, dir) && f != dir
    {
      assert f in parts[k];
      SumOccurs(parts, KERNEL_PDE, k, f);
      assert Frames(mem, dir)[f] <= 1;
    }
  }

  // ----- mapped pages and their contents

  /** A mapped page's frame is owned, and is neither the directory nor a page table. */
  lemma MappedFrame(mem: Memory, dir: nat, page: nat)
    requires SpaceOk(mem, dir) && page < USER_PAGES && !Translate(mem, dir, page).Empty()
    ensures var f := Translate(mem, dir, page).frame;
            && f in Frames(mem, dir) && f != dir
            && forall k :: 0 <= k < KERNEL_PDE ==> mem[dir].entries[k].frame != f
  {
    var i, j := page / NUM_ENTRIES, page % NUM_ENTRIES;
    assert TableOk(mem, mem[dir].entries[i]);
    PageInFrames(mem, dir, i, j);
    PageIsNoTable(mem, dir, i, j, i);
    forall k: nat | k < KERNEL_PDE
      ensures mem[dir].entries[k].frame != Translate(mem, dir, page).frame
    {
      assert TableOk(mem, mem[dir].entries[k]);
      PageIsNoTable(mem, dir, i, j, k);
    }
  }

  lemma WriteMappedTables(mem: Memory, dir: nat, f: nat, frame: Frame)
    requires SpaceOk(mem, dir) && f != dir && forall k :: 0 <= k < KERNEL_PDE ==> mem[dir].entries[k].frame != f
    ensures var mem' := mem[f := frame];
            SpaceOk(mem', dir) && Frames(mem', dir) == Frames(mem, dir) && mem'[dir] == mem[dir]
  {
    var mem' := mem[f := frame];
    var d := mem[dir].entries;
    forall k: nat | k < KERNEL_PDE
      ensures TableOk(mem', d[k]) && TableFrames(mem', d[k]) == TableFrames(mem, d[k])
    {
      assert TableOk(mem, d[k]);
      TableFramesFrame(mem, mem', d[k]);
    }
    SumSame(Tables(mem, d), Tables(mem', d), KERNEL_PDE);
    assert Frames(mem', dir) == Frames(mem, dir);
  }

  /** Writing to a mapped page changes the address space in no other way. */
  lemma WriteMapped(mem: Memory, dir: nat, page: nat, frame: Frame)
    requires SpaceOk(mem, dir) && page < USER_PAGES && !Translate(mem, dir, page).Empty()
    ensures var mem' := mem[Translate(mem, dir, page).frame := frame];
            SpaceOk(mem', dir) && Frames(mem', dir) == Frames(mem, dir) && SameTranslation(mem, mem', dir) &&
              mem'[dir] == mem[dir]
  {
    var f := Translate(mem, dir, page).frame;
    MappedFrame(mem, dir, page);
    WriteMappedTables(mem, dir, f, frame);
    var d := mem[dir].entries;
    forall v: nat | v < USER_PAGES
      ensures Translate(mem[f := frame], dir, v) == Translate(mem, dir, v)
    {
      assert TableOk(mem, d[v / NUM_ENTRIES]);
    }
  }

  lemma SameTableApart(mem: Memory, dir: nat, i: nat, j: nat, l: nat)
    requires SpaceOk(mem, dir) && i < KERNEL_PDE && j < l < NUM_ENTRIES
    requires !mem[dir].entries[i].Empty() && IsTable(mem, mem[dir].entries[i].frame)
    requires !mem[mem[dir].entries[i].frame].entries[j].Empty()
    ensures mem[mem[dir].entries[i].frame].entries[j].frame != mem[mem[dir].entries[i].frame].entries[l].frame
  {
    var d := mem[dir].entries;
    var pages := Pages(mem[d[i].frame].entries);
    var f := mem[d[i].frame].entries[j].frame;
    SumTwoOccur(pages, NUM_ENTRIES, j, l, f);
    SumOccurs(Tables(mem, d), KERNEL_PDE, i, f);
    assert Frames(mem, dir)[f] <= 1;
  }

  lemma OtherTableApart(mem: Memory, dir: nat, i: nat, j: nat, k: nat, l: nat)
    requires SpaceOk(mem, dir) && i < k < KERNEL_PDE && j < NUM_ENTRIES && l < NUM_ENTRIES
    requires !mem[dir].entries[i].Empty() && IsTable(mem, mem[dir].entries[i].frame)
    requires !mem[dir].entries[k].Empty() && IsTable(mem, mem[dir].entries[k].frame)
    requires !mem[mem[dir].entries[i].frame].entries[j].Empty()
    ensures mem[mem[dir].entries[i].frame].entries[j].frame != mem[mem[dir].entries[k].frame].entries[l].frame
  {
    var d := mem[dir].entries;
    var f := mem[d[i].frame].entries[j].frame;
    SumOccurs(Pages(mem[d[i].frame].entries), NUM_ENTRIES, j, f);
    SumOccurs(Pages(mem[d[k].frame].entries), NUM_ENTRIES, l, f);
    SumTwoOccur(Tables(mem, d), KERNEL_PDE, i, k, f);
    assert Frames(mem, dir)[f] <= 1;
  }

  /** Two pages do not share a frame. */
  lemma MappedApart(mem: Memory, dir: nat, u: nat, v: nat)
    requires SpaceOk(mem, dir) && u < v < USER_PAGES
    requires !Translate(mem, dir, u).Empty() && !Translate(mem, dir, v).Empty()
    ensures Translate(mem, dir, u).frame != Translate(mem, dir, v).frame
  {
    if u / NUM_ENTRIES == v / NUM_ENTRIES {
      SameTableApart(mem, dir, u / NUM_ENTRIES, u % NUM_ENTRIES, v % NUM_ENTRIES);
    } else {
      OtherTableApart(mem, dir, u / NUM_ENTRIES, u % NUM_ENTRIES, v / NUM_ENTRIES, v % NUM_ENTRIES);
    }
  }

  /** The contents of a mapped page. */
  ghost function Contents(mem: Memory, dir: nat, page: nat): Frame {
    var e := Translate(mem, dir, page);
    if e.Empty() || e.frame !in mem then Stale else mem[e.frame]
  }

  /** Pages other than `page` map to the same frames with the same contents. */
  ghost predicate OthersKept(mem0: Memory, mem: Memory, dir: nat, page: nat) {
    forall v: nat :: v < USER_PAGES && v != page ==>
      Translate(mem, dir, v) == Translate(mem0, dir, v) && Contents(mem, dir, v) == Contents(mem0, dir, v)
  }

  lemma MappedResident(mem: Memory, dir: nat, page: nat)
    requires SpaceOk(mem, dir) && Resident(mem, dir) && page < USER_PAGES && !Translate(mem, dir, page).Empty()
    ensures Translate(mem, dir, page).frame in mem
  {
    MappedFrame(mem, dir, page);
  }

  lemma MapKeepsOther(mem0: Memory, mem: Memory, dir: nat, page: nat, v: nat)
    requires SpaceOk(mem0, dir) && SpaceOk(mem, dir) && Resident(mem0, dir) && page < USER_PAGES && v < USER_PAGES
    requires Translate(mem, dir, v) == Translate(mem0, dir, v)
    requires KeptBut(mem0, mem, {dir, TableOf(mem, dir, page)})
    ensures Contents(mem, dir, v) == Contents(mem0, dir, v)
  {
    if !Translate(mem0, dir, v).Empty() {
      MappedResident(mem0, dir, v);
      MappedFrame(mem, dir, v);
      ContentsStay(mem0, mem, dir, v, {dir, TableOf(mem, dir, page)});
    }
  }

  lemma ContentsStay(mem0: Memory, mem: Memory, dir: nat, v: nat, changed: set<nat>)
    requires Translate(mem, dir, v) == Translate(mem0, dir, v) && KeptBut(mem0, mem, changed)
    requires var f := Translate(mem0, dir, v).frame; f in mem0 && f !in changed
    ensures Contents(mem, dir, v) == Contents(mem0, dir, v)
  {
  }

  lemma MapKeepsOthers(mem0: Memory, mem: Memory, dir: nat, page: nat, e: Entry)
    requires SpaceOk(mem0, dir) && SpaceOk(mem, dir) && Resident(mem0, dir) && page < USER_PAGES
    requires MapsOnly(mem0, mem, dir, page, e)
    requires KeptBut(mem0, mem, {dir, TableOf(mem, dir, page)})
    ensures OthersKept(mem0, mem, dir, page)
  {
    forall v: nat | v < USER_PAGES && v != page
      ensures Contents(mem, dir, v) == Contents(mem0, dir, v)
    {
      MapKeepsOther(mem0, mem, dir, page, v);
    }
  }
}
