/** How many frames are left: what is taken was free before, and nothing else has become less. */
module FreeFrames {
  import opened Alignment
  import opened BuddyPartition
  import opened AddressSpace
  import opened FrameOwnership

  /** No page is free. */
  ghost predicate Exhausted(m: Partition) {
    !exists p: nat :: FreeAt(m, p)
  }

  lemma NoRunExhausted(m: Partition)
    requires !FreeRunExists(m, 0)
    ensures Exhausted(m)
  {
    forall p: nat
      ensures !FreeAt(m, p)
    {
      if FreeAt(m, p) {
        assert Aligned(p, 0) && FreeRun(m, p, 0);
      }
    }
  }

  /** The number of free pages. */
  ghost function FreeCount(total: nat, m: Partition): nat {
    |FreePages(total, m)|
  }

  lemma FreeBefore(total: nat, m0: Partition, m: Partition, frames: multiset<nat>, p: nat)
    requires Tiling(total, m0) && Tiling(total, m) && Took(m0, m, frames) && p in frames
    ensures p < total && FreeAt(m0, p)
  {
    assert IsLive(m, p, 0) && Covers(m, p, p);
    forall h: nat | h in Live(m0)
      ensures !InRun(h, Live(m0)[h], p)
    {
      assert IsLive(m0, h, Live(m0)[h]) && IsLive(m, h, Live(m0)[h]);
      assert InRun(h, Live(m0)[h], p) ==> Covers(m, h, p);
      assert !IsLive(m0, p, 0);
    }
    FreeIsNotLive(total, m0, p);
  }

  /** Taking frames takes exactly these from the free pages. */
  lemma TookFree(total: nat, m0: Partition, m: Partition, frames: multiset<nat>)
    requires Tiling(total, m0) && Tiling(total, m) && Took(m0, m, frames)
    ensures forall p: nat :: FreeAt(m0, p) <==> FreeAt(m, p) || p in frames
  {
    forall p: nat
      ensures FreeAt(m0, p) <==> FreeAt(m, p) || p in frames
    {
      FreeInside(total, m0, p);
      FreeInside(total, m, p);
      if p in frames {
        FreeBefore(total, m0, m, frames, p);
      } else if p < total {
        FreeIsNotLive(total, m0, p);
        FreeIsNotLive(total, m, p);
        LiveBefore(m0, m, frames, p);
      }
    }
  }

  /** A page outside the frames taken lies in a live block before if it does afterwards, and the other way round. */
  lemma LiveBefore(m0: Partition, m: Partition, frames: multiset<nat>, p: nat)
    requires Took(m0, m, frames) && p !in frames
    ensures (exists h: nat :: h in Live(m0) && InRun(h, Live(m0)[h], p)) <==>
      exists h: nat :: h in Live(m) && InRun(h, Live(m)[h], p)
  {
    if h: nat :| h in Live(m0) && InRun(h, Live(m0)[h], p) {
      assert IsLive(m0, h, Live(m0)[h]) && IsLive(m, h, Live(m0)[h]);
      assert h in Live(m) && InRun(h, Live(m)[h], p);
    }
    if h: nat :| h in Live(m) && InRun(h, Live(m)[h], p) {
      assert IsLive(m, h, Live(m)[h]);
      assert h in frames && Live(m)[h] == 0 ==> h == p;
      assert IsLive(m0, h, Live(m)[h]);
      assert h in Live(m0) && InRun(h, Live(m0)[h], p);
    }
  }

  /** Every frame taken is one free page less. */
  lemma TookCounts(total: nat, m0: Partition, m: Partition, frames: multiset<nat>)
    requires Tiling(total, m0) && Tiling(total, m) && Took(m0, m, frames) && NoSharing(frames)
    ensures FreeCount(total, m0) == FreeCount(total, m) + |frames|
  {
    var taken := AsSet(frames);
    TookFree(total, m0, m, frames);
    forall p: nat
      ensures p in FreePages(total, m0) <==> p in FreePages(total, m) + taken
      ensures !(p in FreePages(total, m) && p in taken)
    {
      FreeInside(total, m0, p);
      FreeInside(total, m, p);
      if p in frames {
        TakenIsNotFree(total, m0, m, frames, p);
      }
    }
    assert FreePages(total, m0) == FreePages(total, m) + taken;
    AsSetSize(frames);
  }

  ghost function AsSet(frames: multiset<nat>): set<nat> {
    set f | f in frames
  }

  lemma AsSetSize(frames: multiset<nat>)
    requires NoSharing(frames)
    ensures |AsSet(frames)| == |frames|
  {
    forall f: nat
      ensures multiset(AsSet(frames))[f] == frames[f]
    {
    }
    assert multiset(AsSet(frames)) == frames;
  }

  lemma TakenIsNotFree(total: nat, m0: Partition, m: Partition, frames: multiset<nat>, p: nat)
    requires Tiling(total, m0) && Tiling(total, m) && Took(m0, m, frames) && p in frames
    ensures !FreeAt(m, p)
  {
    FreeBefore(total, m0, m, frames, p);
    assert IsLive(m, p, 0);
    assert p in Live(m) && InRun(p, Live(m)[p], p);
    FreeIsNotLive(total, m, p);
  }

  lemma ExhaustedCount(total: nat, m: Partition)
    requires Exhausted(m)
    ensures FreeCount(total, m) == 0
  {
    assert FreePages(total, m) == {};
  }
}
