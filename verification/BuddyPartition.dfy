/**
 The buddy system as a function of the block partition alone. A partition maps
 the first page of every block to the block's order and to whether it is free;
 the lists, counters and page headers of the allocator only represent it.
 */
module BuddyPartition {
  import opened Units
  import opened Alignment

  /** The largest block has `Pow2(TOP_ORDER)` pages. */
  const TOP_ORDER: nat := 10

  datatype Block = Block(order: nat, free: bool)
  type Partition = map<nat, Block>

  ghost predicate InRun(a: nat, order: nat, p: nat) {
    a <= p < a + Pow2(order)
  }

  ghost predicate Covers(m: Partition, h: nat, p: nat) {
    h in m && InRun(h, m[h].order, p)
  }

  ghost predicate Covered(m: Partition, p: nat) {
    exists h: nat :: Covers(m, h, p)
  }

  ghost predicate Shaped(total: nat, m: Partition) {
    forall h :: h in m ==> m[h].order <= TOP_ORDER && Aligned(h, m[h].order) && h + Pow2(m[h].order) <= total
  }

  ghost predicate Unambiguous(m: Partition) {
    forall g: nat, h: nat, p: nat :: Covers(m, g, p) && Covers(m, h, p) ==> g == h
  }

  ghost predicate Complete(total: nat, m: Partition) {
    forall p: nat :: p < total ==> Covered(m, p)
  }

  /** The blocks are aligned, inside the memory, disjoint, and cover every page. */
  ghost predicate Tiling(total: nat, m: Partition) {
    Shaped(total, m) && Unambiguous(m) && Complete(total, m)
  }

  ghost predicate FreeAt(m: Partition, p: nat) {
    exists h: nat :: Covers(m, h, p) && m[h].free
  }

  ghost function FreePages(total: nat, m: Partition): set<nat> {
    set p: nat | p < total && FreeAt(m, p)
  }

  ghost function Run(a: nat, order: nat): set<nat> {
    set p: nat | p < a + Pow2(order) && InRun(a, order, p)
  }

  /** The blocks in use, with their orders. */
  ghost function Live(m: Partition): map<nat, nat> {
    map h | h in m && !m[h].free :: m[h].order
  }

  ghost predicate IsFree(m: Partition, h: nat, order: nat) {
    h in m && m[h] == Block(order, true)
  }

  /** `h` and its buddy are both whole free blocks of the same order, below the top. */
  ghost predicate Mergeable(m: Partition, h: nat) {
    && h in m && m[h].free && m[h].order < TOP_ORDER && Aligned(h, m[h].order)
    && IsFree(m, Buddy(h, m[h].order), m[h].order)
  }

  ghost predicate Coalesced(m: Partition) {
    forall h :: h in m ==> !Mergeable(m, h)
  }

  /** Coalesced, but for pairs that involve the block being freed. */
  ghost predicate CoalescedBut(m: Partition, x: nat) {
    forall h :: h in m && Mergeable(m, h) ==> h == x || Buddy(h, m[h].order) == x
  }

  /** What every reachable state of the allocator satisfies. */
  ghost predicate Good(total: nat, m: Partition) {
    Tiling(total, m) && Coalesced(m)
  }

  // ----- the two directions of a merge

  ghost function Split(m: Partition, h: nat): Partition
    requires h in m && m[h].order > 0
  {
    var k := m[h].order - 1;
    m[h := Block(k, m[h].free)][h + Pow2(k) := Block(k, true)]
  }

  ghost function Merge(m: Partition, h: nat, b: nat): Partition
    requires h in m
  {
    (m - {h, b})[Min(h, b) := Block(m[h].order + 1, true)]
  }

  /** Halves the live block `h` until it has the order wanted; the upper halves become free. */
  ghost function SplitTo(m: Partition, h: nat, order: nat): Partition
    requires h in m
    decreases if h in m then m[h].order else 0
  {
    if m[h].order <= order then m else SplitTo(Split(m, h), h, order)
  }

  ghost function Allocate(m: Partition, h: nat, order: nat): Partition
    requires h in m
  {
    SplitTo(Mark(m, h, false), h, order)
  }

  /** Merges the free block `h` with its buddy for as long as the buddy is a whole free block. */
  ghost function Coalesce(m: Partition, h: nat): Partition
    requires h in m
    decreases if h in m then TOP_ORDER - m[h].order else 0
  {
    if Mergeable(m, h) then
      var b := Buddy(h, m[h].order);
      Coalesce(Merge(m, h, b), Min(h, b))
    else m
  }

  ghost function Release(m: Partition, h: nat): Partition
    requires h in m
  {
    Coalesce(Mark(m, h, true), h)
  }

  // ----- the laminar argument

  /** The buddy of a block is the first page of some block, no larger than the block itself. */
  lemma BuddyIsHead(total: nat, m: Partition, h: nat)
    requires Tiling(total, m) && h in m
    requires Buddy(h, m[h].order) < total
    ensures var b := Buddy(h, m[h].order); b in m && m[b].order <= m[h].order
  {
    var k := m[h].order;
    var b := Buddy(h, k);
    BuddyProperties(h, k);
    assert Covered(m, b);
    var g: nat :| Covers(m, g, b);
    var j := m[g].order;
    assert Covers(m, h, h);
    if j > k {
      Laminar(Min(h, b), k + 1, g, j);
      assert Covers(m, g, h);
    } else {
      Laminar(g, j, b, k);
      assert g == b;
    }
  }

  // ----- splitting

  lemma SplitCovers(m: Partition, h: nat, g: nat, p: nat)
    requires h in m && m[h].order > 0 && h + Pow2(m[h].order - 1) !in m
    ensures var u := h + Pow2(m[h].order - 1);
            && (Covers(Split(m, h), g, p) ==> Covers(m, if g == u then h else g, p))
            && (Covers(m, g, p) ==> Covers(Split(m, h), if g == h && p >= u then u else g, p))
  {
  }

  lemma UpperHalfIsNoHead(total: nat, m: Partition, h: nat)
    requires Tiling(total, m) && h in m && m[h].order > 0
    ensures h + Pow2(m[h].order - 1) !in m
  {
    var u := h + Pow2(m[h].order - 1);
    if u in m {
      assert Covers(m, h, u) && Covers(m, u, u);
    }
  }

  lemma SplitUnambiguous(m: Partition, h: nat)
    requires h in m && m[h].order > 0 && h + Pow2(m[h].order - 1) !in m && Unambiguous(m)
    ensures Unambiguous(Split(m, h))
  {
    var m' := Split(m, h);
    forall f: nat, g: nat, p: nat | Covers(m', f, p) && Covers(m', g, p)
      ensures f == g
    {
      SplitCovers(m, h, f, p);
      SplitCovers(m, h, g, p);
    }
  }

  lemma SplitComplete(total: nat, m: Partition, h: nat)
    requires h in m && m[h].order > 0 && h + Pow2(m[h].order - 1) !in m && Complete(total, m)
    ensures Complete(total, Split(m, h))
  {
    forall p: nat | p < total
      ensures Covered(Split(m, h), p)
    {
      assert Covered(m, p);
      var g: nat :| Covers(m, g, p);
      SplitCovers(m, h, g, p);
    }
  }

  lemma SplitTiling(total: nat, m: Partition, h: nat)
    requires Tiling(total, m) && h in m && m[h].order > 0
    ensures Tiling(total, Split(m, h))
  {
    UpperHalfIsNoHead(total, m, h);
    SplitUnambiguous(m, h);
    SplitComplete(total, m, h);
    Halves(h, m[h].order - 1);
  }

  /** Splitting a live block makes exactly its upper half free. */
  lemma SplitFreeAt(total: nat, m: Partition, h: nat, p: nat)
    requires Tiling(total, m) && h in m && !m[h].free && m[h].order > 0
    ensures FreeAt(Split(m, h), p) <==> FreeAt(m, p) || InRun(h + Pow2(m[h].order - 1), m[h].order - 1, p)
  {
    var u := h + Pow2(m[h].order - 1);
    var m' := Split(m, h);
    UpperHalfIsNoHead(total, m, h);
    if FreeAt(m', p) {
      var g: nat :| Covers(m', g, p) && m'[g].free;
      SplitCovers(m, h, g, p);
    }
    if FreeAt(m, p) {
      var g: nat :| Covers(m, g, p) && m[g].free;
      SplitCovers(m, h, g, p);
    }
    if InRun(u, m[h].order - 1, p) {
      assert Covers(m', u, p);
    }
  }

  /** Splitting a live block makes no pair of buddies mergeable. */
  lemma SplitMergeable(m: Partition, h: nat, g: nat)
    requires h in m && !m[h].free && m[h].order > 0 && Aligned(h, m[h].order)
    requires Mergeable(Split(m, h), g)
    ensures Mergeable(m, g)
  {
    Halves(h, m[h].order - 1);
    BuddyProperties(g, Split(m, h)[g].order);
  }

  lemma SplitCoalesced(m: Partition, h: nat)
    requires Coalesced(m) && h in m && !m[h].free && m[h].order > 0 && Aligned(h, m[h].order)
    ensures Coalesced(Split(m, h))
  {
    forall g | g in Split(m, h)
      ensures !Mergeable(Split(m, h), g)
    {
      if Mergeable(Split(m, h), g) {
        SplitMergeable(m, h, g);
      }
    }
  }

  lemma SplitLive(total: nat, m: Partition, h: nat)
    requires Tiling(total, m) && h in m && !m[h].free && m[h].order > 0
    ensures Live(Split(m, h)) == Live(m)[h := m[h].order - 1]
  {
    UpperHalfIsNoHead(total, m, h);
  }

  lemma {:induction false} SplitToGood(total: nat, m: Partition, h: nat, order: nat)
    requires Good(total, m) && h in m && !m[h].free && order <= m[h].order
    ensures Good(total, SplitTo(m, h, order))
    ensures Live(SplitTo(m, h, order)) == Live(m)[h := order]
    decreases m[h].order
  {
    if m[h].order == order {
      assert Live(m) == Live(m)[h := order];
    } else {
      SplitTiling(total, m, h);
      SplitCoalesced(m, h);
      SplitLive(total, m, h);
      SplitToGood(total, Split(m, h), h, order);
    }
  }

  lemma {:induction false} SplitToFreeAt(total: nat, m: Partition, h: nat, order: nat, p: nat)
    requires Tiling(total, m) && h in m && !m[h].free && order <= m[h].order
    ensures FreeAt(SplitTo(m, h, order), p) <==>
            FreeAt(m, p) || (InRun(h, m[h].order, p) && !InRun(h, order, p))
    decreases m[h].order
  {
    if m[h].order > order {
      SplitTiling(total, m, h);
      SplitFreeAt(total, m, h, p);
      SplitToFreeAt(total, Split(m, h), h, order, p);
      Pow2Monotone(order, m[h].order - 1);
    }
  }

  // ----- allocating

  function Mark(m: Partition, h: nat, free: bool): Partition
    requires h in m
  {
    m[h := Block(m[h].order, free)]
  }

  lemma MarkTiling(total: nat, m: Partition, h: nat, free: bool)
    requires Tiling(total, m) && h in m
    ensures Tiling(total, Mark(m, h, free))
  {
    var m' := Mark(m, h, free);
    assert forall g: nat, p: nat :: Covers(m', g, p) <==> Covers(m, g, p);
    forall p: nat | p < total
      ensures Covered(m', p)
    {
      assert Covered(m, p);
    }
  }

  /** Only the pages of `h` change when `h` is marked. */
  lemma MarkFreeAt(total: nat, m: Partition, h: nat, free: bool, p: nat)
    requires Tiling(total, m) && h in m
    ensures FreeAt(Mark(m, h, free), p) <==> if InRun(h, m[h].order, p) then free else FreeAt(m, p)
  {
    var m' := Mark(m, h, free);
    if InRun(h, m[h].order, p) {
      assert Covers(m', h, p) && Covers(m, h, p);
    }
    if FreeAt(m', p) {
      var g: nat :| Covers(m', g, p) && m'[g].free;
      assert Covers(m, g, p);
    }
    if FreeAt(m, p) {
      var g: nat :| Covers(m, g, p) && m[g].free;
      assert Covers(m', g, p);
    }
  }

  lemma MarkLiveCoalesced(m: Partition, h: nat)
    requires Coalesced(m) && h in m
    ensures Coalesced(Mark(m, h, false))
  {
    var m' := Mark(m, h, false);
    assert forall g :: g in m' && Mergeable(m', g) ==> Mergeable(m, g);
  }

  lemma MarkLive(m: Partition, h: nat)
    requires h in m && m[h].free
    ensures h !in Live(m) && Live(Mark(m, h, false)) == Live(m)[h := m[h].order]
  {
  }

  lemma AllocateGood(total: nat, m: Partition, h: nat, order: nat)
    requires Good(total, m) && h in m && m[h].free && order <= m[h].order
    ensures Good(total, Allocate(m, h, order))
    ensures h !in Live(m) && Live(Allocate(m, h, order)) == Live(m)[h := order]
  {
    MarkTiling(total, m, h, false);
    MarkLiveCoalesced(m, h);
    SplitToGood(total, Mark(m, h, false), h, order);
    MarkLive(m, h);
  }

  /** An allocation takes exactly the run it returns. */
  lemma AllocateProperties(total: nat, m: Partition, h: nat, order: nat)
    requires Good(total, m) && h in m && m[h].free && order <= m[h].order
    ensures Good(total, Allocate(m, h, order))
    ensures h !in Live(m) && Live(Allocate(m, h, order)) == Live(m)[h := order]
    ensures Run(h, order) <= FreePages(total, m)
    ensures FreePages(total, Allocate(m, h, order)) == FreePages(total, m) - Run(h, order)
  {
    Pow2Monotone(order, m[h].order);
    forall p: nat
      ensures FreeAt(Allocate(m, h, order), p) <==> FreeAt(m, p) && !InRun(h, order, p)
      ensures InRun(h, order, p) ==> FreeAt(m, p)
    {
      AllocateFreeAt(total, m, h, order, p);
    }
    AllocateGood(total, m, h, order);
  }

  lemma AllocateFreeAt(total: nat, m: Partition, h: nat, order: nat, p: nat)
    requires Tiling(total, m) && h in m && m[h].free && order <= m[h].order
    ensures FreeAt(Allocate(m, h, order), p) <==> FreeAt(m, p) && !InRun(h, order, p)
    ensures InRun(h, order, p) ==> FreeAt(m, p)
  {
    MarkTiling(total, m, h, false);
    MarkFreeAt(total, m, h, false, p);
    SplitToFreeAt(total, Mark(m, h, false), h, order, p);
    Pow2Monotone(order, m[h].order);
    if InRun(h, m[h].order, p) {
      assert Covers(m, h, p);
    }
  }

  // ----- merging

  lemma MergeCovers(m: Partition, h: nat, g: nat, p: nat)
    requires Mergeable(m, h)
    ensures var b := Buddy(h, m[h].order);
            var lo := Min(h, b);
            && (Covers(m, g, p) ==> Covers(Merge(m, h, b), if g == h || g == b then lo else g, p))
            && (Covers(Merge(m, h, b), g, p) ==>
                  Covers(m,
                         if g != lo then g else if p < lo + Pow2(m[h].order) then lo else if lo == h then b else h,
                         p))
  {
    BuddyProperties(h, m[h].order);
  }

  lemma MergeUnambiguous(m: Partition, h: nat)
    requires Mergeable(m, h) && Unambiguous(m)
    ensures Unambiguous(Merge(m, h, Buddy(h, m[h].order)))
  {
    var m' := Merge(m, h, Buddy(h, m[h].order));
    BuddyProperties(h, m[h].order);
    forall f: nat, g: nat, p: nat | Covers(m', f, p) && Covers(m', g, p)
      ensures f == g
    {
      MergeCovers(m, h, f, p);
      MergeCovers(m, h, g, p);
    }
  }

  lemma MergeComplete(total: nat, m: Partition, h: nat)
    requires Mergeable(m, h) && Complete(total, m)
    ensures Complete(total, Merge(m, h, Buddy(h, m[h].order)))
  {
    forall p: nat | p < total
      ensures Covered(Merge(m, h, Buddy(h, m[h].order)), p)
    {
      assert Covered(m, p);
      var g: nat :| Covers(m, g, p);
      MergeCovers(m, h, g, p);
    }
  }

  lemma MergeTiling(total: nat, m: Partition, h: nat)
    requires Tiling(total, m) && Mergeable(m, h)
    ensures Tiling(total, Merge(m, h, Buddy(h, m[h].order)))
  {
    BuddyProperties(h, m[h].order);
    MergeUnambiguous(m, h);
    MergeComplete(total, m, h);
  }

  lemma MergeFreeAt(m: Partition, h: nat, p: nat)
    requires Mergeable(m, h)
    ensures FreeAt(Merge(m, h, Buddy(h, m[h].order)), p) <==> FreeAt(m, p)
  {
    var b := Buddy(h, m[h].order);
    var m' := Merge(m, h, b);
    if FreeAt(m', p) {
      var g: nat :| Covers(m', g, p) && m'[g].free;
      MergeCovers(m, h, g, p);
    }
    if FreeAt(m, p) {
      var g: nat :| Covers(m, g, p) && m[g].free;
      MergeCovers(m, h, g, p);
    }
  }

  lemma MergeCoalesced(m: Partition, h: nat)
    requires Mergeable(m, h) && CoalescedBut(m, h)
    ensures var b := Buddy(h, m[h].order); CoalescedBut(Merge(m, h, b), Min(h, b))
  {
    var b := Buddy(h, m[h].order);
    var lo := Min(h, b);
    var m' := Merge(m, h, b);
    forall g | g in m' && Mergeable(m', g)
      ensures g == lo || Buddy(g, m'[g].order) == lo
    {
      if g != lo && Buddy(g, m'[g].order) != lo {
        MergeMergeable(m, h, g);
      }
    }
  }

  lemma MergeMergeable(m: Partition, h: nat, g: nat)
    requires Mergeable(m, h)
    requires var b := Buddy(h, m[h].order);
             var m' := Merge(m, h, b);
             Mergeable(m', g) && g != Min(h, b) && Buddy(g, m'[g].order) != Min(h, b)
    ensures Mergeable(m, g) && g != h && Buddy(g, m[g].order) != h
  {
    var b := Buddy(h, m[h].order);
    BuddyProperties(h, m[h].order);
    BuddyProperties(g, Merge(m, h, b)[g].order);
  }

  lemma MergeLive(m: Partition, h: nat)
    requires Mergeable(m, h)
    ensures Live(Merge(m, h, Buddy(h, m[h].order))) == Live(m)
  {
  }

  /** Coalescing leaves no free buddies and touches no live block. */
  lemma {:induction false} CoalesceGood(total: nat, m: Partition, h: nat)
    requires Tiling(total, m) && CoalescedBut(m, h) && h in m && m[h].free
    ensures Good(total, Coalesce(m, h))
    ensures Live(Coalesce(m, h)) == Live(m)
    decreases TOP_ORDER - m[h].order
  {
    if Mergeable(m, h) {
      var b := Buddy(h, m[h].order);
      MergeTiling(total, m, h);
      MergeCoalesced(m, h);
      MergeLive(m, h);
      CoalesceGood(total, Merge(m, h, b), Min(h, b));
    } else {
      CoalescedAll(m, h);
    }
  }

  /** Coalescing does not change which pages are free. */
  lemma {:induction false} CoalesceFreeAt(m: Partition, h: nat, p: nat)
    requires h in m
    ensures FreeAt(Coalesce(m, h), p) <==> FreeAt(m, p)
    decreases TOP_ORDER - m[h].order
  {
    if Mergeable(m, h) {
      var b := Buddy(h, m[h].order);
      MergeFreeAt(m, h, p);
      CoalesceFreeAt(Merge(m, h, b), Min(h, b), p);
    }
  }

  lemma CoalescedAll(m: Partition, h: nat)
    requires CoalescedBut(m, h) && h in m && !Mergeable(m, h)
    ensures Coalesced(m)
  {
    forall g | g in m
      ensures !Mergeable(m, g)
    {
      if Mergeable(m, g) {
        BuddyProperties(g, m[g].order);
      }
    }
  }

  lemma MarkFreeCoalesced(m: Partition, h: nat)
    requires Coalesced(m) && h in m
    ensures CoalescedBut(Mark(m, h, true), h)
  {
    var m' := Mark(m, h, true);
    forall g | g in m' && Mergeable(m', g)
      ensures g == h || Buddy(g, m'[g].order) == h
    {
      assert g == h || Buddy(g, m'[g].order) == h || Mergeable(m, g);
    }
  }

  /** A release gives back exactly the run of the block. */
  lemma ReleaseProperties(total: nat, m: Partition, h: nat)
    requires Good(total, m) && h in m && !m[h].free
    ensures Good(total, Release(m, h))
    ensures Live(Release(m, h)) == Live(m) - {h}
    ensures Run(h, m[h].order) !! FreePages(total, m)
    ensures FreePages(total, Release(m, h)) == FreePages(total, m) + Run(h, m[h].order)
  {
    var m1 := Mark(m, h, true);
    MarkTiling(total, m, h, true);
    MarkFreeCoalesced(m, h);
    CoalesceGood(total, m1, h);
    assert Live(m1) == Live(m) - {h};
    forall p: nat
      ensures FreeAt(Release(m, h), p) <==> FreeAt(m, p) || InRun(h, m[h].order, p)
      ensures FreeAt(m, p) ==> !InRun(h, m[h].order, p)
    {
      ReleaseFreeAt(total, m, h, p);
    }
  }

  lemma ReleaseFreeAt(total: nat, m: Partition, h: nat, p: nat)
    requires Tiling(total, m) && h in m && !m[h].free
    ensures FreeAt(Release(m, h), p) <==> FreeAt(m, p) || InRun(h, m[h].order, p)
    ensures FreeAt(m, p) ==> !InRun(h, m[h].order, p)
  {
    CoalesceFreeAt(Mark(m, h, true), h, p);
    MarkFreeAt(total, m, h, true, p);
    MarkFreeAt(total, m, h, false, p);
    assert Mark(m, h, false) == m;
  }

  // ----- completeness and canonical form

  ghost predicate Holds(m: Partition, h: nat, a: nat, order: nat) {
    h in m && m[h].free && order <= m[h].order && Nested(a, order, h, m[h].order)
  }

  lemma HoldsParent(m: Partition, h: nat, a: nat, x: nat, order: nat)
    requires Holds(m, h, x, order) && order < m[h].order && Aligned(h, m[h].order) && Aligned(a, order + 1)
    requires x == a || x == a + Pow2(order)
    ensures Holds(m, h, a, order + 1)
  {
    Laminar(a, order + 1, h, m[h].order);
  }

  /** Free blocks that hold both halves of a run are the same block, or else they would have been merged. */
  lemma JoinHalves(total: nat, m: Partition, a: nat, order: nat, h: nat, g: nat)
    requires Shaped(total, m) && Unambiguous(m) && Coalesced(m) && order < TOP_ORDER && Aligned(a, order + 1)
    requires Holds(m, h, a, order) && Holds(m, g, a + Pow2(order), order)
    ensures Holds(m, h, a, order + 1)
  {
    if m[h].order > order {
      HoldsParent(m, h, a, a, order);
    } else if m[g].order > order {
      HoldsParent(m, g, a, a + Pow2(order), order);
      assert Covers(m, g, a) && Covers(m, h, a);
    } else {
      HalvesMerge(m, a, order);
    }
  }

  lemma HalvesMerge(m: Partition, a: nat, order: nat)
    requires Coalesced(m) && order < TOP_ORDER && Aligned(a, order + 1)
    ensures !IsFree(m, a, order) || !IsFree(m, a + Pow2(order), order)
  {
    Halves(a, order);
    assert a in m ==> !Mergeable(m, a);
  }

  /** Every aligned run of free pages lies inside one free block. */
  lemma {:induction false} FreeRunInBlock(total: nat, m: Partition, a: nat, order: nat) returns (h: nat)
    requires Good(total, m) && order <= TOP_ORDER && Aligned(a, order)
    requires forall p: nat :: InRun(a, order, p) ==> FreeAt(m, p)
    ensures Holds(m, h, a, order)
    decreases order
  {
    if order == 0 {
      assert InRun(a, 0, a);
      h :| Covers(m, h, a) && m[h].free;
    } else {
      var u := a + Pow2(order - 1);
      Halves(a, order - 1);
      assert forall p: nat :: InRun(a, order - 1, p) || InRun(u, order - 1, p) ==> InRun(a, order, p);
      h := FreeRunInBlock(total, m, a, order - 1);
      var g := FreeRunInBlock(total, m, u, order - 1);
      JoinHalves(total, m, a, order - 1, h, g);
    }
  }

  /** Can a request for `Pow2(order)` pages be met at all? */
  ghost predicate FreeRunExists(m: Partition, order: nat) {
    exists a: nat :: Aligned(a, order) && FreeRun(m, a, order)
  }

  ghost predicate FreeRun(m: Partition, a: nat, order: nat) {
    forall p: nat :: InRun(a, order, p) ==> FreeAt(m, p)
  }

  ghost predicate FreeBlockExists(m: Partition, order: nat) {
    exists h: nat :: h in m && m[h].free && m[h].order >= order
  }

  /** Completeness: there is a block to take exactly when there is an aligned free run. */
  lemma Completeness(total: nat, m: Partition, order: nat)
    requires Good(total, m) && order <= TOP_ORDER
    ensures FreeBlockExists(m, order) <==> FreeRunExists(m, order)
  {
    if FreeRunExists(m, order) {
      var a: nat :| Aligned(a, order) && FreeRun(m, a, order);
      var h := FreeRunInBlock(total, m, a, order);
    }
    if FreeBlockExists(m, order) {
      var h: nat :| h in m && m[h].free && m[h].order >= order;
      AlignedDown(h, order, m[h].order);
      Pow2Monotone(order, m[h].order);
      forall p: nat | InRun(h, order, p)
        ensures FreeAt(m, p)
      {
        assert Covers(m, h, p);
      }
      assert FreeRun(m, h, order);
    }
  }

  /** The block `(h, order)` as the set of free pages alone determines it: a maximal aligned free run. */
  ghost predicate MaximalRun(m: Partition, h: nat, order: nat) {
    && order <= TOP_ORDER && Aligned(h, order) && FreeRun(m, h, order)
    && (order == TOP_ORDER || !FreeRun(m, Min(h, Buddy(h, order)), order + 1))
  }

  lemma FreeBlockIsMaximal(total: nat, m: Partition, h: nat, order: nat)
    requires Good(total, m) && IsFree(m, h, order)
    ensures MaximalRun(m, h, order)
  {
    forall p: nat | InRun(h, order, p)
      ensures FreeAt(m, p)
    {
      assert Covers(m, h, p);
    }
    if order < TOP_ORDER {
      var a := Min(h, Buddy(h, order));
      BuddyProperties(h, order);
      if FreeRun(m, a, order + 1) {
        var g := FreeRunInBlock(total, m, a, order + 1);
        assert Covers(m, g, h) && Covers(m, h, h);
      }
    }
  }

  lemma MaximalIsFreeBlock(total: nat, m: Partition, h: nat, order: nat)
    requires Good(total, m) && MaximalRun(m, h, order)
    ensures IsFree(m, h, order)
  {
    var g := FreeRunInBlock(total, m, h, order);
    var k := m[g].order;
    FreeBlockIsMaximal(total, m, g, k);
    if k > order {
      BuddyProperties(h, order);
      var a := Min(h, Buddy(h, order));
      Laminar(a, order + 1, g, k);
    }
  }

  /** Canonical form: the free blocks are a function of the set of free pages. */
  lemma Canonical(total: nat, m1: Partition, m2: Partition, h: nat, order: nat)
    requires Good(total, m1) && Good(total, m2)
    requires FreePages(total, m1) == FreePages(total, m2)
    ensures IsFree(m1, h, order) <==> IsFree(m2, h, order)
  {
    forall p: nat
      ensures FreeAt(m1, p) <==> FreeAt(m2, p)
    {
      FreeInside(total, m1, p);
      FreeInside(total, m2, p);
      assert p in FreePages(total, m1) <==> p in FreePages(total, m2);
    }
    if IsFree(m1, h, order) {
      FreeBlockIsMaximal(total, m1, h, order);
      assert MaximalRun(m2, h, order);
      MaximalIsFreeBlock(total, m2, h, order);
    }
    if IsFree(m2, h, order) {
      FreeBlockIsMaximal(total, m2, h, order);
      assert MaximalRun(m1, h, order);
      MaximalIsFreeBlock(total, m1, h, order);
    }
  }

  lemma FreeInside(total: nat, m: Partition, p: nat)
    requires Tiling(total, m)
    ensures FreeAt(m, p) ==> p < total
  {
  }

  /** A page is free exactly when no live block holds it. */
  lemma FreeIsNotLive(total: nat, m: Partition, p: nat)
    requires Tiling(total, m) && p < total
    ensures FreeAt(m, p) <==> !exists h: nat :: h in Live(m) && InRun(h, Live(m)[h], p)
  {
    assert Covered(m, p);
    var g: nat :| Covers(m, g, p);
    if !m[g].free {
      assert g in Live(m) && InRun(g, Live(m)[g], p);
    }
    if h: nat :| h in Live(m) && InRun(h, Live(m)[h], p) {
      assert Covers(m, h, p);
    }
  }

  /** Two reachable states with the same live blocks are the same state, whatever the histories. */
  lemma SameLiveSameState(total: nat, m1: Partition, m2: Partition)
    requires Good(total, m1) && Good(total, m2) && Live(m1) == Live(m2)
    ensures m1 == m2
  {
    forall p: nat | p < total
      ensures FreeAt(m1, p) <==> FreeAt(m2, p)
    {
      FreeIsNotLive(total, m1, p);
      FreeIsNotLive(total, m2, p);
    }
    assert FreePages(total, m1) == FreePages(total, m2);
    forall h: nat | h in m1
      ensures h in m2 && m2[h] == m1[h]
    {
      SameBlock(total, m1, m2, h);
    }
    forall h: nat | h in m2
      ensures h in m1
    {
      SameBlock(total, m2, m1, h);
    }
  }

  lemma SameBlock(total: nat, m1: Partition, m2: Partition, h: nat)
    requires Good(total, m1) && Good(total, m2)
    requires Live(m1) == Live(m2) && FreePages(total, m1) == FreePages(total, m2)
    requires h in m1
    ensures h in m2 && m2[h] == m1[h]
  {
    if m1[h].free {
      Canonical(total, m1, m2, h, m1[h].order);
    } else {
      assert h in Live(m2) && Live(m2)[h] == Live(m1)[h];
    }
  }

  /** Freeing what was just allocated restores every block. */
  lemma RoundTrip(total: nat, m: Partition, h: nat, order: nat)
    requires Good(total, m) && h in m && m[h].free && order <= m[h].order
    ensures h in Allocate(m, h, order)
    ensures Release(Allocate(m, h, order), h) == m
  {
    var m1 := Allocate(m, h, order);
    AllocateProperties(total, m, h, order);
    assert h in Live(m1);
    ReleaseProperties(total, m1, h);
    assert Live(Release(m1, h)) == Live(m);
    SameLiveSameState(total, Release(m1, h), m);
  }

  // ----- runs

  ghost predicate Step(m: Partition, m': Partition) {
    || (exists h: nat, order: nat :: h in m && m[h].free && order <= m[h].order && m' == Allocate(m, h, order))
    || (exists h: nat :: h in m && !m[h].free && m' == Release(m, h))
  }

  ghost predicate IsRun(run: seq<Partition>) {
    |run| > 0 && forall i :: 0 < i < |run| ==> Step(run[i - 1], run[i])
  }

  /** Every state of every run is good. */
  lemma {:induction false} RunsStayGood(total: nat, run: seq<Partition>, i: nat)
    requires IsRun(run) && Good(total, run[0]) && i < |run|
    ensures Good(total, run[i])
  {
    if i > 0 {
      RunsStayGood(total, run, i - 1);
      var m := run[i - 1];
      assert Step(m, run[i]);
      if h: nat, order: nat :| h in m && m[h].free && order <= m[h].order && run[i] == Allocate(m, h, order) {
        AllocateProperties(total, m, h, order);
      } else {
        var h: nat :| h in m && !m[h].free && run[i] == Release(m, h);
        ReleaseProperties(total, m, h);
      }
    }
  }

  /** Any two runs that end with the same live blocks end with the same free blocks. */
  lemma RunsAreCanonical(total: nat, run1: seq<Partition>, run2: seq<Partition>)
    requires IsRun(run1) && Good(total, run1[0]) && IsRun(run2) && Good(total, run2[0])
    requires Live(run1[|run1| - 1]) == Live(run2[|run2| - 1])
    ensures run1[|run1| - 1] == run2[|run2| - 1]
  {
    RunsStayGood(total, run1, |run1| - 1);
    RunsStayGood(total, run2, |run2| - 1);
    SameLiveSameState(total, run1[|run1| - 1], run2[|run2| - 1]);
  }
}
