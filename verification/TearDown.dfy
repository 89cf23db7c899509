/** Giving back an address space: frames are found once, and belong to one page table only. */
module TearDown {
  import opened BuddyPartition
  import opened FrameSums
  import opened AddressSpace
  import opened FrameOwnership

  /** The frames of the page table in frame `t`. */
  ghost function TableParts(mem: Memory, t: nat): multiset<nat>
    requires IsTable(mem, t)
  {
    Sum(Pages(mem[t].entries), NUM_ENTRIES) + multiset{t}
  }

  /** `frames` are live single pages, used once, and none of them is among `returned`. */
  ghost predicate OwnFrames(m: Partition, frames: multiset<nat>, returned: multiset<nat>) {
    Owned(m, frames) && NoSharing(frames) && frames !! returned
  }

  lemma SubsetSize(a: multiset<nat>, b: multiset<nat>)
    requires a <= b
    ensures |a| <= |b|
  {
    assert b == a + (b - a);
  }

  lemma FoundOnce(a: multiset<nat>, b: multiset<nat>, t: nat, f: nat)
    requires a + multiset{f} <= b && NoSharing(b + multiset{t})
    ensures f !in a && f != t && f in b
  {
    assert (b + multiset{t})[f] <= 1;
    assert (a + multiset{f})[f] <= b[f];
  }

  /** The page of entry `j` is neither the table, nor a page of an earlier entry, nor already returned. */
  /** From `j` on the table has these entries still. */
  ghost predicate Remaining(mem: Memory, t: nat, t0: seq<Entry>, j: nat) {
    IsTable(mem, t) && |t0| == NUM_ENTRIES && forall k :: j <= k < NUM_ENTRIES ==> mem[t].entries[k] == t0[k]
  }

  lemma PagesApart(mem: Memory, m: Partition, t: nat, returned: multiset<nat>, j: nat)
    requires IsTable(mem, t) && j < NUM_ENTRIES && OwnFrames(m, TableParts(mem, t), returned)
    ensures var pages := Pages(mem[t].entries);
            var f := mem[t].entries[j].frame;
            && Sum(pages, j + 1) == Sum(pages, j) + OneFrame(mem[t].entries[j])
            && |Sum(pages, j + 1)| <= |Sum(pages, NUM_ENTRIES)|
            && |Sum(pages, j + 1)| == |Sum(pages, j)| + |OneFrame(mem[t].entries[j])|
            && (f != 0 ==> f != t && f !in returned + Sum(pages, j) && f in TableParts(mem, t) && IsLive(m, f, 0))
  {
    var pages := Pages(mem[t].entries);
    var f := mem[t].entries[j].frame;
    SumPrefix(pages, j + 1, NUM_ENTRIES);
    SubsetSize(Sum(pages, j + 1), Sum(pages, NUM_ENTRIES));
    assert pages[j] == OneFrame(mem[t].entries[j]);
    if f != 0 {
      FoundOnce(Sum(pages, j), Sum(pages, NUM_ENTRIES), t, f);
      assert f in TableParts(mem, t);
    }
  }

  lemma PartsApart(a: multiset<nat>, b: multiset<nat>, c: multiset<nat>, dir: nat)
    requires a + b <= c && NoSharing(c + multiset{dir})
    ensures a !! b && NoSharing(b) && dir !in a && dir !in b
  {
    assert (c + multiset{dir})[dir] <= 1 && c[dir] == 0;
    assert 0 !in c + multiset{dir};
    forall f: nat
      ensures b[f] <= 1 && !(f in a && f in b) && (f in a || f in b ==> f in c)
    {
      assert (c + multiset{dir})[f] <= 1;
      assert a[f] + b[f] == (a + b)[f] <= c[f];
    }
    assert dir !in c;
  }

  /** What the next entry of a directory contributes was not contributed by an earlier one. */
  lemma TablesApart(mem: Memory, m: Partition, dir: nat, i: nat)
    requires SpaceOk(mem, dir) && Owned(m, Frames(mem, dir)) && i < KERNEL_PDE
    ensures var parts := Tables(mem, mem[dir].entries);
            var e := mem[dir].entries[i];
            && Sum(parts, i + 1) == Sum(parts, i) + TableFrames(mem, e)
            && |Sum(parts, i + 1)| == |Sum(parts, i)| + |TableFrames(mem, e)| <= |Sum(parts, KERNEL_PDE)|
            && OwnFrames(m, TableFrames(mem, e), Sum(parts, i))
            && dir !in TableFrames(mem, e)
            && (!e.Empty() ==> IsTable(mem, e.frame) && TableFrames(mem, e) == TableParts(mem, e.frame))
  {
    var parts := Tables(mem, mem[dir].entries);
    var e := mem[dir].entries[i];
    assert TableOk(mem, e);
    assert parts[i] == TableFrames(mem, e);
    SumPrefix(parts, i + 1, KERNEL_PDE);
    SubsetSize(Sum(parts, i + 1), Sum(parts, KERNEL_PDE));
    PartsApart(Sum(parts, i), parts[i], Sum(parts, KERNEL_PDE), dir);
    forall f: nat | f in parts[i]
      ensures f in Frames(mem, dir)
    {
      TableFramesInFrames(mem, dir, i, f);
    }
  }

  lemma DirApart(mem: Memory, dir: nat)
    requires SpaceOk(mem, dir)
    ensures dir != 0 && dir !in Sum(Tables(mem, mem[dir].entries), KERNEL_PDE)
  {
    assert dir in Frames(mem, dir) && Frames(mem, dir)[dir] <= 1;
  }

  lemma TableApart(mem: Memory, t: nat)
    requires IsTable(mem, t) && NoSharing(TableParts(mem, t))
    ensures t !in Sum(Pages(mem[t].entries), NUM_ENTRIES)
  {
    assert TableParts(mem, t)[t] <= 1;
  }
}
