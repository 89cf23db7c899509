/** The steps of copying an address space: what each of them keeps, on values of memory and the allocator's blocks. */
module CopySteps {
  import opened BuddyPartition
  import opened FrameSums
  import opened AddressSpace
  import opened FrameOwnership
  import opened TearDown

  /** Keeps `Copying` and `Cloning` closed: what they say is in view only where a key is stated. */
  ghost predicate CopyKey(k: int) {
    true
  }

  /** From `mem1` to `mem2`, frame `f` got the contents of the page of `e` and entry `j` of the page table. */
  ghost predicate PageCopied(mem1: Memory, mem2: Memory, c: nat, i: nat, j: nat, f: nat, e: Entry) {
    && IsTable(mem1, c) && i < KERNEL_PDE && j < NUM_ENTRIES && e.frame in mem1
    && var tab := mem1[c].entries[i].frame;
       IsTable(mem1[f := mem1[e.frame]], tab) && mem2 == WithPage(mem1[f := mem1[e.frame]], tab, j, f, e.flags)
       && f !in Frames(mem1, c) && f != tab && IsTable(mem2, c) && mem2[c] == mem1[c]
  }

  lemma Overwritten(mem0: Memory, f: nat, source: nat)
    requires source in mem0 && f != source
    ensures mem0[f := Stale][f := mem0[f := Stale][source]] == mem0[f := mem0[source]]
  {
  }

  /** Frame `f` was taken and holds what `source` does; the address space at `c` is as it was, and can take it. */
  ghost predicate Fetched(mem0: Memory, mem: Memory, part0: Partition, part: Partition,
                          c: nat, i: nat, j: nat, f: nat, source: nat) {
    && IsTable(mem0, c) && i < KERNEL_PDE && source in mem0 && Took(part0, part, multiset{f})
    && mem == mem0[f := mem0[source]] && f !in Frames(mem0, c) && f != mem0[c].entries[i].frame
    && Owned(part, Frames(mem, c)) && Resident(mem, c) && IsLive(part, f, 0) && CanEnter(mem, c, i, j, f)
    && Frames(mem, c) == Frames(mem0, c) && mem[c] == mem0[c]
  }

  ghost predicate CanEnter(mem: Memory, c: nat, i: nat, j: nat, f: nat) {
    && SpaceOk(mem, c) && i < KERNEL_PDE && j < NUM_ENTRIES
    && !mem[c].entries[i].Empty() && TableOk(mem, mem[c].entries[i])
    && mem[mem[c].entries[i].frame].entries[j].Empty()
    && f != 0 && f !in Frames(mem, c) && f in mem
  }

  /** A frame just taken belongs to no address space, and filling it changes none. */
  lemma FreshFrame(mem0: Memory, part0: Partition, part1: Partition, c: nat, i: nat, j: nat, f: nat, source: nat)
    requires SpaceOk(mem0, c) && Owned(part0, Frames(mem0, c)) && Took(part0, part1, multiset{f}) && f != 0
    requires i < KERNEL_PDE && j < NUM_ENTRIES && !mem0[c].entries[i].Empty() && TableOk(mem0, mem0[c].entries[i])
    requires mem0[mem0[c].entries[i].frame].entries[j].Empty() && Resident(mem0, c)
    requires IsLive(part0, source, 0) && source in mem0
    ensures f != source && Fetched(mem0, mem0[f := mem0[source]], part0, part1, c, i, j, f, source)
  {
    OwnedStays(part0, part1, multiset{f}, Frames(mem0, c));
    TakenIsOwned(part0, part1, multiset{f});
    assert f !in Frames(mem0, c);
    assert c in Frames(mem0, c);
    TableInFrames(mem0, c, i);
    WriteOutside(mem0, c, f, mem0[source]);
  }

  /**
   Copying directory entry `i` of the parent, begun at `mem0` and `part0`: `taken` frames so far,
   one of which is the clone's page table, and the first `j` entries of the parent's page table `t` copied.
   */
  ghost predicate CopyingBody(mem0: Memory, mem: Memory, part0: Partition, part: Partition,
                              dir: nat, c: nat, i: nat, j: nat, t: seq<Entry>, taken: multiset<nat>) {
    && Parent(dir, c, mem0, part0) && TableEntries(mem0, dir, i, t)
    && Took(part0, part, taken) && KeptFor(mem0, mem, c, taken)
    && CopiedUpTo(mem, c, i, t, j)
    && !mem[c].entries[i].Empty() && TableOk(mem, mem[c].entries[i]) && mem[c].entries[i].frame in taken
    && Frames(mem, c) == Frames(mem0, c) + taken && TakenSize(t, j, taken)
  }

  /** The page table, and a page for each of the first `j` entries that is not empty. */
  ghost predicate TakenSize(t: seq<Entry>, j: nat, taken: multiset<nat>) {
    j <= |t| && |taken| == 1 + |Sum(Pages(t), j)|
  }

  lemma OneMorePage(t: seq<Entry>, j: nat)
    requires j < |t|
    ensures |Sum(Pages(t), j + 1)| == |Sum(Pages(t), j)| + if t[j].Empty() then 0 else 1
  {
    assert Pages(t)[j] == OneFrame(t[j]);
  }

  /** A table is not complete as long as there is an entry to copy. */
  lemma StillSmaller(t: seq<Entry>, j: nat, taken: multiset<nat>)
    requires TakenSize(t, j, taken) && j < |t| && !t[j].Empty()
    ensures |taken| < 1 + |Sum(Pages(t), |t|)|
  {
    OneMorePage(t, j);
    SumPrefix(Pages(t), j + 1, |t|);
    SubsetSize(Sum(Pages(t), j + 1), Sum(Pages(t), |t|));
  }

  ghost predicate Copying(mem0: Memory, mem: Memory, part0: Partition, part: Partition,
                          dir: nat, c: nat, i: nat, j: nat, t: seq<Entry>, taken: multiset<nat>) {
    forall k {:trigger CopyKey(k)} :: CopyKey(k) ==> CopyingBody(mem0, mem, part0, part, dir, c, i, j, t, taken)
  }

  /** What the copying needs of the parent: it is intact, and apart from what is taken. */
  ghost predicate Parent(dir: nat, c: nat, mem0: Memory, part0: Partition) {
    SpaceOk(mem0, dir) && Resident(mem0, dir) && Owned(part0, Frames(mem0, dir)) && c !in Frames(mem0, dir)
  }

  /** `t` is the page table of the parent's entry `i`. */
  ghost predicate TableEntries(mem0: Memory, dir: nat, i: nat, t: seq<Entry>) {
    IsTable(mem0, dir) && i < KERNEL_PDE && !mem0[dir].entries[i].Empty() && IsTable(mem0, mem0[dir].entries[i].frame)
    && t == mem0[mem0[dir].entries[i].frame].entries
  }

  /** The first `j` entries of the clone's page table are copied, the others empty. */
  ghost predicate CopiedUpTo(mem: Memory, c: nat, i: nat, t: seq<Entry>, j: nat) {
    && IsTable(mem, c) && i < KERNEL_PDE && IsTable(mem, mem[c].entries[i].frame)
    && var u := mem[mem[c].entries[i].frame].entries;
       CopiedPages(mem, t, u, j) && forall k :: j <= k < NUM_ENTRIES ==> u[k].Empty()
  }

  lemma EmptyStep(mem0: Memory, mem: Memory, part0: Partition, part: Partition,
                  dir: nat, c: nat, i: nat, j: nat, t: seq<Entry>, taken: multiset<nat>)
    requires Copying(mem0, mem, part0, part, dir, c, i, j, t, taken)
    requires j < NUM_ENTRIES == |t| && t[j].Empty()
    ensures Copying(mem0, mem, part0, part, dir, c, i, j + 1, t, taken)
  {
    assert CopyKey(0);
    OneMorePage(t, j);
  }

  /** The parent's page is untouched, live, and none of the frames taken for the clone. */
  lemma ParentPage(mem0: Memory, mem: Memory, part0: Partition, part: Partition,
                   dir: nat, c: nat, i: nat, j: nat, t: seq<Entry>, taken: multiset<nat>)
    requires Copying(mem0, mem, part0, part, dir, c, i, j, t, taken) && j < NUM_ENTRIES == |t|
    ensures !t[j].Empty() ==> t[j].frame in mem && IsLive(part, t[j].frame, 0)
    ensures IsTable(mem, c) && i < KERNEL_PDE && !mem[c].entries[i].Empty() && TableOk(mem, mem[c].entries[i])
    ensures mem[mem[c].entries[i].frame].entries[j].Empty()
  {
    assert CopyKey(0);
    ParentPages(mem0, mem, part0, part, dir, c, i, t, taken);
  }

  lemma ParentPages(mem0: Memory, mem: Memory, part0: Partition, part: Partition,
                    dir: nat, c: nat, i: nat, t: seq<Entry>, taken: multiset<nat>)
    requires Parent(dir, c, mem0, part0) && TableEntries(mem0, dir, i, t)
    requires Took(part0, part, taken) && KeptFor(mem0, mem, c, taken)
    ensures forall k :: 0 <= k < NUM_ENTRIES && !t[k].Empty() ==> t[k].frame !in taken && t[k].flags.present
    ensures forall k :: 0 <= k < NUM_ENTRIES && !t[k].Empty() ==> t[k].frame in mem && IsLive(part, t[k].frame, 0)
  {
    OwnedStays(part0, part, taken, Frames(mem0, dir));
    assert TableOk(mem0, mem0[dir].entries[i]);
    forall k: nat | k < NUM_ENTRIES && !t[k].Empty()
      ensures t[k].frame in Frames(mem0, dir)
    {
      PageInFrames(mem0, dir, i, k);
    }
  }

  lemma PageStep(mem0: Memory, mem1: Memory, mem2: Memory, part0: Partition, part1: Partition, part2: Partition,
                 dir: nat, c: nat, i: nat, j: nat, t: seq<Entry>, f: nat, taken: multiset<nat>)
    requires Copying(mem0, mem1, part0, part1, dir, c, i, j, t, taken) && j < NUM_ENTRIES == |t|
    requires SpaceOk(mem1, c) && SpaceOk(mem2, c) && f != 0 && !t[j].Empty()
    requires Frames(mem2, c) == Frames(mem1, c) + multiset{f}
    requires Took(part1, part2, multiset{f}) && PageCopied(mem1, mem2, c, i, j, f, t[j])
    ensures Copying(mem0, mem2, part0, part2, dir, c, i, j + 1, t, taken + multiset{f})
  {
    assert CopyKey(0);
    OneMorePage(t, j);
    PageStepCopies(mem0, mem1, mem2, part0, part1, part2, dir, c, i, j, t, f, taken);
    TookMore(part0, part1, part2, taken, multiset{f});
    KeptStep(mem0, mem1, c, taken, f, mem1[t[j].frame], mem1[c].entries[i].frame, mem2[mem1[c].entries[i].frame]);
    assert TableOk(mem2, mem2[c].entries[i]);
    assert Frames(mem0, c) + taken + multiset{f} == Frames(mem0, c) + (taken + multiset{f});
  }

  /** A frame just taken is none that was live. */
  lemma NotThatFrame(part1: Partition, part2: Partition, t: seq<Entry>, f: nat)
    requires Took(part1, part2, multiset{f}) && f != 0
    requires forall k :: 0 <= k < |t| && !t[k].Empty() ==> IsLive(part1, t[k].frame, 0)
    ensures forall k :: 0 <= k < |t| ==> t[k].frame != f
  {
    assert f in multiset{f} && !IsLive(part1, f, 0);
  }

  lemma PageStepCopies(mem0: Memory, mem1: Memory, mem2: Memory, part0: Partition, part1: Partition, part2: Partition,
                       dir: nat, c: nat, i: nat, j: nat, t: seq<Entry>, f: nat, taken: multiset<nat>)
    requires CopyingBody(mem0, mem1, part0, part1, dir, c, i, j, t, taken) && j < NUM_ENTRIES == |t|
    requires SpaceOk(mem1, c) && f != 0 && !t[j].Empty()
    requires Took(part1, part2, multiset{f}) && PageCopied(mem1, mem2, c, i, j, f, t[j])
    ensures CopiedUpTo(mem2, c, i, t, j + 1)
  {
    ParentPages(mem0, mem1, part0, part1, dir, c, i, t, taken);
    NotThatFrame(part1, part2, t, f);
    OnePageCopied(mem1, mem2, c, i, j, t, f);
  }

  lemma OnePageCopied(mem1: Memory, mem2: Memory, c: nat, i: nat, j: nat, t: seq<Entry>, f: nat)
    requires SpaceOk(mem1, c) && CopiedUpTo(mem1, c, i, t, j) && !mem1[c].entries[i].Empty() &&
             TableOk(mem1, mem1[c].entries[i])
    requires j < NUM_ENTRIES == |t| && !t[j].Empty() && t[j].flags.present &&
             PageCopied(mem1, mem2, c, i, j, f, t[j]) && f != 0
    requires forall k :: 0 <= k < NUM_ENTRIES ==> t[k].frame != f && t[k].frame != mem1[c].entries[i].frame
    ensures CopiedUpTo(mem2, c, i, t, j + 1)
  {
    CopiedStep(mem1, t, c, i, j, f, t[j].flags);
  }

  lemma KeptStep(mem0: Memory, mem1: Memory, c: nat, taken: multiset<nat>, f: nat, x: Frame, tab: nat, y: Frame)
    requires KeptFor(mem0, mem1, c, taken) && tab in taken
    ensures KeptFor(mem0, mem1[f := x][tab := y], c, taken + multiset{f})
  {
  }

  lemma EntryEntered(mem0: Memory, mem: Memory, dir: nat, i: nat, tab: nat, flags: Flags)
    requires IsTable(mem0, dir) && i < NUM_ENTRIES && mem == WithTable(mem0, dir, i, tab, flags)
    ensures OtherEntriesKept(mem0[dir].entries, mem[dir].entries, i)
    ensures mem[dir].entries[i] == MapEntry(tab, flags)
  {
  }

  ghost predicate OtherEntriesKept(before: seq<Entry>, after: seq<Entry>, i: nat) {
    |before| == |after| && forall k :: 0 <= k < |before| && k != i ==> after[k] == before[k]
  }

  lemma FreshTable(mem: Memory, c: nat, i: nat, t: seq<Entry>)
    requires IsTable(mem, c) && i < KERNEL_PDE && mem[c].entries[i].frame in mem
    requires mem[mem[c].entries[i].frame] == EmptyTable()
    ensures CopiedUpTo(mem, c, i, t, 0)
  {
  }

  lemma FirstKept(mem0: Memory, c: nat, i: nat, tab: nat, flags: Flags)
    requires IsTable(mem0, c) && i < NUM_ENTRIES
    ensures KeptFor(mem0, WithTable(mem0, c, i, tab, flags), c, multiset{tab})
  {
  }

  lemma StartCopying(mem0: Memory, mem: Memory, part0: Partition, part: Partition,
                     dir: nat, c: nat, i: nat, tab: nat, t: seq<Entry>)
    requires SpaceOk(mem0, c) && SpaceOk(mem, c) && Parent(dir, c, mem0, part0) && TableEntries(mem0, dir, i, t)
    requires mem0[c].entries[i].Empty() && tab != 0 && tab != c && Took(part0, part, multiset{tab})
    requires mem == WithTable(mem0, c, i, tab, mem0[dir].entries[i].flags)
    requires Frames(mem, c) == Frames(mem0, c) + multiset{tab}
    ensures Copying(mem0, mem, part0, part, dir, c, i, 0, t, multiset{tab})
  {
    assert TableOk(mem, mem[c].entries[i]);
    FreshTable(mem, c, i, t);
    assert TakenSize(t, 0, multiset{tab});
    FirstKept(mem0, c, i, tab, mem0[dir].entries[i].flags);
    assert CopyingBody(mem0, mem, part0, part, dir, c, i, 0, t, multiset{tab});
  }

  /** What a copied page table amounts to for the clone's directory. */
  lemma CopyingEnds(mem0: Memory, mem: Memory, part0: Partition, part: Partition,
                    dir: nat, c: nat, i: nat, j: nat, t: seq<Entry>, taken: multiset<nat>)
    requires Copying(mem0, mem, part0, part, dir, c, i, j, t, taken)
    ensures Took(part0, part, taken) && KeptFor(mem0, mem, c, taken) && Frames(mem, c) == Frames(mem0, c) + taken
    ensures IsTable(mem, c) && i < KERNEL_PDE && IsTable(mem0, dir) && TakenSize(t, j, taken)
    ensures j == NUM_ENTRIES && mem[c].entries[i].flags == mem0[dir].entries[i].flags ==>
              IsTable(mem, dir) && mem[dir] == mem0[dir] && CopiedTable(mem, mem[dir].entries[i], mem[c].entries[i])
  {
    assert CopyKey(0);
    ParentKept(mem0, mem, part0, part, dir, c, taken);
    TableInFrames(mem0, dir, i);
  }

  lemma ParentKept(mem0: Memory, mem: Memory, part0: Partition, part: Partition, dir: nat, c: nat, taken: multiset<nat>)
    requires Parent(dir, c, mem0, part0) && Took(part0, part, taken) && KeptFor(mem0, mem, c, taken)
    ensures Parent(dir, c, mem, part) && Frames(mem, dir) == Frames(mem0, dir) && Agree(mem0, mem, Frames(mem0, dir))
    ensures mem[dir] == mem0[dir]
  {
    OwnedStays(part0, part, taken, Frames(mem0, dir));
    SpaceAgree(mem0, mem, dir);
  }

  /** The clone's directory `c`, begun at `mem0` and `part0`, with the first `i` directory entries copied. */
  ghost predicate CloningBody(mem0: Memory, mem: Memory, part0: Partition, part: Partition, dir: nat, c: nat, i: nat) {
    && Parent(dir, c, mem0, part0)
    && Took(part0, part, Frames(mem, c)) && KeptFor(mem0, mem, c, Frames(mem, c))
    && IsTable(mem, c) && CopiedTables(mem, mem0[dir].entries, mem[c].entries, i)
    && forall k :: i <= k < KERNEL_PDE ==> mem[c].entries[k].Empty()
  }

  ghost predicate Cloning(mem0: Memory, mem: Memory, part0: Partition, part: Partition, dir: nat, c: nat, i: nat) {
    forall k {:trigger CopyKey(k)} :: CopyKey(k) ==> CloningBody(mem0, mem, part0, part, dir, c, i)
  }

  lemma StartCloning(mem0: Memory, part0: Partition, part: Partition, dir: nat, c: nat)
    requires SpaceOk(mem0, dir) && Resident(mem0, dir) && Owned(part0, Frames(mem0, dir))
    requires c != 0 && Took(part0, part, multiset{c})
    ensures var mem := mem0[c := EmptyTable()];
            && Cloning(mem0, mem, part0, part, dir, c, 0)
            && SpaceOk(mem, c) && Frames(mem, c) == multiset{c} && Owned(part, multiset{c}) && Resident(mem, c)
  {
    var mem := mem0[c := EmptyTable()];
    NewSpace(mem, c);
    OwnedStays(part0, part, multiset{c}, Frames(mem0, dir));
    TakenIsOwned(part0, part, multiset{c});
    assert CloningBody(mem0, mem, part0, part, dir, c, 0);
  }

  /** What copying the next page table needs. */
  lemma CloningNext(mem0: Memory, mem: Memory, part0: Partition, part: Partition, dir: nat, c: nat, i: nat)
    requires Cloning(mem0, mem, part0, part, dir, c, i) && i < KERNEL_PDE
    ensures Parent(dir, c, mem, part) && IsTable(mem0, dir) && mem[dir] == mem0[dir]
    ensures IsTable(mem, c) && mem[c].entries[i].Empty()
  {
    assert CopyKey(0);
    ParentKept(mem0, mem, part0, part, dir, c, Frames(mem, c));
  }

  lemma CloningEmpty(mem0: Memory, mem: Memory, part0: Partition, part: Partition, dir: nat, c: nat, i: nat)
    requires Cloning(mem0, mem, part0, part, dir, c, i) && i < KERNEL_PDE
    requires IsTable(mem0, dir) && mem0[dir].entries[i].Empty()
    ensures Cloning(mem0, mem, part0, part, dir, c, i + 1)
  {
    assert CopyKey(0);
    EmptyTableCopied(mem, mem0[dir].entries, mem[c].entries, i);
    assert CloningBody(mem0, mem, part0, part, dir, c, i + 1);
  }

  lemma EmptyTableCopied(mem: Memory, d: seq<Entry>, c: seq<Entry>, i: nat)
    requires CopiedTables(mem, d, c, i) && i < |d| && i < |c| && d[i].Empty() && c[i].Empty()
    ensures CopiedTables(mem, d, c, i + 1)
  {
  }

  /** One more page table copied. */
  lemma CloningStep(mem0: Memory, mem1: Memory, mem2: Memory, part0: Partition, part1: Partition, part2: Partition,
                    dir: nat, c: nat, i: nat, taken: multiset<nat>)
    requires Cloning(mem0, mem1, part0, part1, dir, c, i) && i < KERNEL_PDE && SpaceOk(mem1, c)
    requires Took(part1, part2, taken) && KeptFor(mem1, mem2, c, taken) && Frames(mem2, c) == Frames(mem1, c) + taken
    requires IsTable(mem1, c) && IsTable(mem2, c) && OtherEntriesKept(mem1[c].entries, mem2[c].entries, i)
    requires IsTable(mem2, dir) && CopiedTable(mem2, mem2[dir].entries[i], mem2[c].entries[i])
    ensures Cloning(mem0, mem2, part0, part2, dir, c, i + 1)
  {
    assert CopyKey(0);
    CloningStepTables(mem0, mem1, mem2, part0, part1, part2, dir, c, i, taken);
    TookMore(part0, part1, part2, Frames(mem1, c), taken);
    KeptForThen(mem0, mem1, mem2, c, Frames(mem1, c), taken);
    assert CloningBody(mem0, mem2, part0, part2, dir, c, i + 1);
  }

  lemma KeptForThen(mem0: Memory, mem1: Memory, mem2: Memory, c: nat, a: multiset<nat>, b: multiset<nat>)
    requires KeptFor(mem0, mem1, c, a) && KeptFor(mem1, mem2, c, b)
    ensures KeptFor(mem0, mem2, c, a + b)
  {
  }

  lemma CloningStepTables(mem0: Memory, mem1: Memory, mem2: Memory, part0: Partition, part1: Partition,
                          part2: Partition,
                          dir: nat, c: nat, i: nat, taken: multiset<nat>)
    requires CloningBody(mem0, mem1, part0, part1, dir, c, i) && i < KERNEL_PDE && SpaceOk(mem1, c)
    requires Took(part1, part2, taken) && KeptFor(mem1, mem2, c, taken)
    requires IsTable(mem2, c) && OtherEntriesKept(mem1[c].entries, mem2[c].entries, i)
    requires IsTable(mem2, dir) && CopiedTable(mem2, mem2[dir].entries[i], mem2[c].entries[i])
    ensures CopiedTables(mem2, mem0[dir].entries, mem2[c].entries, i + 1)
  {
    ParentKept(mem0, mem1, part0, part1, dir, c, Frames(mem1, c));
    TakenIsOwned(part0, part1, Frames(mem1, c));
    OwnedStays(part1, part2, taken, Frames(mem1, dir));
    OwnedStays(part1, part2, taken, Frames(mem1, c));
    CopiedTablesKept(mem1, mem2, dir, c, taken, i);
  }

  /** The clone has as many frames as the part of the parent that is copied. */
  lemma CloningSize(mem0: Memory, mem: Memory, part0: Partition, part: Partition, dir: nat, c: nat, i: nat)
    requires Cloning(mem0, mem, part0, part, dir, c, i) && i <= KERNEL_PDE
    ensures IsTable(mem, dir) && Frames(mem, dir) == Frames(mem0, dir)
    ensures |Frames(mem, c)| == 1 + |Sum(Tables(mem, mem[dir].entries), i)|
  {
    assert CopyKey(0);
    ParentKept(mem0, mem, part0, part, dir, c, Frames(mem, c));
    PartSize(mem, mem[dir].entries, mem[c].entries, i);
  }

  lemma PartSize(mem: Memory, d: seq<Entry>, c: seq<Entry>, i: nat)
    requires |d| >= KERNEL_PDE && |c| >= KERNEL_PDE && CopiedTables(mem, d, c, i) && i <= KERNEL_PDE
    requires forall k :: i <= k < KERNEL_PDE ==> c[k].Empty()
    ensures |Sum(Tables(mem, c), KERNEL_PDE)| == |Sum(Tables(mem, d), i)|
  {
    var ds, cs := Tables(mem, d), Tables(mem, c);
    forall k: nat | k < i
      ensures |cs[k]| == |ds[k]|
    {
      CopiedTableSize(mem, d[k], c[k]);
    }
    SumSize(ds, cs, i);
    SumRest(cs, i, KERNEL_PDE);
  }

  lemma {:induction false} SumRest(parts: seq<multiset<nat>>, i: nat, n: nat)
    requires i <= n <= |parts| && forall k :: i <= k < n ==> parts[k] == multiset{}
    ensures Sum(parts, n) == Sum(parts, i)
    decreases n
  {
    if i < n {
      SumRest(parts, i, n - 1);
    }
  }

  /** A clone without part of a page table is smaller than its parent. */
  lemma SmallerThanParent(mem: Memory, dir: nat, i: nat, size: nat, taken: nat)
    requires IsTable(mem, dir) && i < KERNEL_PDE && size == 1 + |Sum(Tables(mem, mem[dir].entries), i)|
    requires taken < |TableFrames(mem, mem[dir].entries[i])|
    ensures size + taken < |Frames(mem, dir)|
  {
    var d := Tables(mem, mem[dir].entries);
    assert Sum(d, i + 1) == Sum(d, i) + TableFrames(mem, mem[dir].entries[i]);
    SumPrefix(d, i + 1, KERNEL_PDE);
    SubsetSize(Sum(d, i + 1), Sum(d, KERNEL_PDE));
  }

  lemma CloningDone(mem0: Memory, mem: Memory, part0: Partition, part: Partition, dir: nat, c: nat)
    requires Cloning(mem0, mem, part0, part, dir, c, KERNEL_PDE)
    ensures Took(part0, part, Frames(mem, c)) && KeptFor(mem0, mem, c, Frames(mem, c))
    ensures IsCopy(mem, dir, c) && Parent(dir, c, mem, part)
  {
    assert CopyKey(0);
    ParentKept(mem0, mem, part0, part, dir, c, Frames(mem, c));
  }

  lemma KeptForKernel(mem0: Memory, mem1: Memory, mem2: Memory, c: nat, taken: multiset<nat>)
    requires KeptFor(mem0, mem1, c, taken) && KeptBut(mem1, mem2, {c})
    ensures KeptFor(mem0, mem2, c, taken)
  {
  }

  /** Filling in the kernel half of the directory keeps the copy of the user half. */
  lemma CopyWithKernel(mem1: Memory, mem2: Memory, dir: nat, c: nat)
    requires IsCopy(mem1, dir, c) && SpaceOk(mem1, dir) && SpaceOk(mem1, c) && c !in Frames(mem1, dir)
    requires KeptBut(mem1, mem2, {c}) && IsTable(mem2, c)
    requires forall k :: 0 <= k < KERNEL_PDE ==> mem2[c].entries[k] == mem1[c].entries[k]
    ensures IsCopy(mem2, dir, c)
  {
    assert KeptFor(mem1, mem2, c, multiset{});
    CopiedTablesKept(mem1, mem2, dir, c, multiset{}, KERNEL_PDE);
  }

  lemma CloningSoFar(mem0: Memory, mem: Memory, part0: Partition, part: Partition, dir: nat, c: nat, i: nat)
    requires Cloning(mem0, mem, part0, part, dir, c, i)
    ensures Took(part0, part, Frames(mem, c)) && KeptFor(mem0, mem, c, Frames(mem, c))
  {
    assert CopyKey(0);
  }

  /** Every user page of `copy` translates to the flags and contents that it has in `dir`. */
  ghost predicate IsCopy(mem: Memory, dir: nat, copy: nat) {
    IsTable(mem, dir) && IsTable(mem, copy) && CopiedTables(mem, mem[dir].entries, mem[copy].entries, KERNEL_PDE)
  }
}
