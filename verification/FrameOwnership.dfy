/** Single frames taken from and given back to the page allocator, as changes of its live blocks. */
module FrameOwnership {
  import opened BuddyPartition

  ghost predicate IsLive(m: Partition, h: nat, order: nat) {
    h in m && m[h] == Block(order, false)
  }

  ghost predicate Owned(m: Partition, frames: multiset<nat>) {
    forall f: nat :: f in frames ==> IsLive(m, f, 0)
  }

  ghost predicate Unowned(m: Partition, frames: multiset<nat>) {
    forall f: nat :: f in frames ==> f !in m || m[f].free
  }

  /** From `m0` to `m`, exactly `frames` became live single pages. */
  ghost predicate Took(m0: Partition, m: Partition, frames: multiset<nat>) {
    && Unowned(m0, frames)
    && forall h: nat, k: nat :: IsLive(m, h, k) <==> IsLive(m0, h, k) || (h in frames && k == 0)
  }

  lemma TookNothing(m: Partition)
    ensures Took(m, m, multiset{})
  {
  }

  lemma TookOne(m0: Partition, m: Partition, f: nat)
    requires f !in Live(m0) && Live(m) == Live(m0)[f := 0]
    ensures Took(m0, m, multiset{f})
  {
    forall h: nat, k: nat
      ensures IsLive(m, h, k) <==> IsLive(m0, h, k) || (h in multiset{f} && k == 0)
    {
      assert IsLive(m, h, k) <==> h in Live(m) && Live(m)[h] == k;
      assert IsLive(m0, h, k) <==> h in Live(m0) && Live(m0)[h] == k;
    }
  }

  lemma ReturnedOne(m0: Partition, m: Partition, f: nat)
    requires IsLive(m0, f, 0) && Live(m) == Live(m0) - {f}
    ensures Took(m, m0, multiset{f})
  {
    assert f !in Live(m);
    forall h: nat, k: nat
      ensures IsLive(m0, h, k) <==> IsLive(m, h, k) || (h in multiset{f} && k == 0)
    {
      assert IsLive(m, h, k) <==> h in Live(m) && Live(m)[h] == k;
      assert IsLive(m0, h, k) <==> h in Live(m0) && Live(m0)[h] == k;
    }
  }

  lemma TookMore(m0: Partition, m1: Partition, m2: Partition, a: multiset<nat>, b: multiset<nat>)
    requires Took(m0, m1, a) && Took(m1, m2, b)
    ensures Took(m0, m2, a + b)
    ensures a !! b
  {
    forall f: nat | f in b
      ensures f !in a && (f !in m0 || m0[f].free)
    {
      var k := if f in m0 then m0[f].order else 0;
      assert IsLive(m1, f, 0) <==> IsLive(m0, f, 0) || f in a;
      assert IsLive(m1, f, k) <==> IsLive(m0, f, k) || (f in a && k == 0);
    }
  }

  /** Taking frames and giving them all back restores every block of the allocator. */
  lemma TookAndReturned(total: nat, m0: Partition, m1: Partition, m2: Partition, frames: multiset<nat>)
    requires Good(total, m0) && Good(total, m2)
    requires Took(m0, m1, frames) && Took(m2, m1, frames)
    ensures m2 == m0
  {
    forall h: nat, k: nat
      ensures IsLive(m0, h, k) <==> IsLive(m2, h, k)
    {
      assert IsLive(m1, h, k) <==> IsLive(m0, h, k) || (h in frames && k == 0);
      assert IsLive(m1, h, k) <==> IsLive(m2, h, k) || (h in frames && k == 0);
    }
    SameLiveBlocks(m0, m2);
    SameLiveSameState(total, m0, m2);
  }

  lemma SameLiveBlocks(m0: Partition, m2: Partition)
    requires forall h: nat, k: nat :: IsLive(m0, h, k) <==> IsLive(m2, h, k)
    ensures Live(m0) == Live(m2)
  {
    forall h: nat
      ensures h in Live(m0) ==> h in Live(m2) && Live(m2)[h] == Live(m0)[h]
      ensures h in Live(m2) ==> h in Live(m0)
    {
      if h in Live(m0) {
        assert IsLive(m0, h, m0[h].order);
      }
      if h in Live(m2) {
        assert IsLive(m2, h, m2[h].order);
      }
    }
  }

  lemma OwnedStays(m0: Partition, m: Partition, taken: multiset<nat>, frames: multiset<nat>)
    requires Took(m0, m, taken) && Owned(m0, frames)
    ensures Owned(m, frames) && taken !! frames
  {
    forall f: nat | f in taken
      ensures f !in frames
    {
      assert f !in m0 || m0[f].free;
      assert !IsLive(m0, f, 0);
    }
  }

  lemma TakenIsOwned(m0: Partition, m: Partition, taken: multiset<nat>)
    requires Took(m0, m, taken)
    ensures Owned(m, taken)
  {
  }
}
