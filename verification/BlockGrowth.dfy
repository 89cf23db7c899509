/** Steps that take blocks of the first group and change nothing but them. */
module BlockGrowth {
  import opened Bytes
  import opened Bitmaps
  import opened DirectoryBlock
  import opened ImageFile
  import opened DiskFormat
  import opened Volume
  import opened FileTree

  /** Keeps `Grown` closed: what it says is in view only where a key is stated. */
  ghost predicate GrowKey(k: int) {
    true
  }

  /** The blocks `taken` were free and are now in use; of everything else only the block count changed. */
  ghost predicate GrownBody(before: seq<Byte>, after: seq<Byte>, g: Geometry, taken: set<nat>) {
    && GroupOk(before, g) && GroupOk(after, g)
    && (forall b :: b in taken ==> g.IsData(b) && !BlockUsed(before, g, b))
    && (forall b: nat :: b >= 1 ==> (BlockUsed(after, g, b) <==> BlockUsed(before, g, b) || b in taken))
    && InodeBits(after, g) == InodeBits(before, g)
    && DescOf(before, 0) == DescOf(after, 0).(freeBlocks := DescOf(after, 0).freeBlocks + |taken|)
    && Same(before, after, 0, DescOffset(0)) && Same(before, after, DescOffset(1), g.blockBitmap * BLOCK_SIZE)
    && Same(before, after, g.inodeTable * BLOCK_SIZE, g.DataStart() * BLOCK_SIZE)
    && Same(before, after, g.Beyond(), |before|)
    && (forall b :: g.IsData(b) && b !in taken ==> BlockAt(after, b) == BlockAt(before, b))
  }

  ghost predicate Grown(before: seq<Byte>, after: seq<Byte>, g: Geometry, taken: set<nat>) {
    forall k {:trigger GrowKey(k)} :: GrowKey(k) ==> GrownBody(before, after, g, taken)
  }

  lemma GrownMeans(before: seq<Byte>, after: seq<Byte>, g: Geometry, taken: set<nat>)
    requires Grown(before, after, g, taken)
    ensures GrownBody(before, after, g, taken)
  {
    assert GrowKey(0);
  }

  lemma GrownNothing(bytes: seq<Byte>, g: Geometry)
    requires GroupOk(bytes, g)
    ensures Grown(bytes, bytes, g, {})
  {
    assert GrownBody(bytes, bytes, g, {});
  }

  /** Blocks taken later were free before. */
  lemma TakenLater(a: seq<Byte>, b: seq<Byte>, c: seq<Byte>, g: Geometry, xs: set<nat>, ys: set<nat>)
    requires Grown(a, b, g, xs) && Grown(b, c, g, ys)
    ensures xs !! ys && |xs + ys| == |xs| + |ys| && forall x :: x in xs + ys ==> g.IsData(x) && !BlockUsed(a, g, x)
  {
    GrownMeans(a, b, g, xs);
    GrownMeans(b, c, g, ys);
    forall x | x in ys
      ensures x !in xs && g.IsData(x) && !BlockUsed(a, g, x)
    {
      DataIsNumbered(b, g, x);
      assert !BlockUsed(b, g, x);
    }
    assert |xs + ys| == |xs| + |ys|;
  }

  lemma UsedLater(a: seq<Byte>, b: seq<Byte>, c: seq<Byte>, g: Geometry, xs: set<nat>, ys: set<nat>)
    requires Grown(a, b, g, xs) && Grown(b, c, g, ys)
    ensures forall x: nat :: x >= 1 ==> (BlockUsed(c, g, x) <==> BlockUsed(a, g, x) || x in xs + ys)
  {
    GrownMeans(a, b, g, xs);
    GrownMeans(b, c, g, ys);
    forall x: nat | x >= 1
      ensures BlockUsed(c, g, x) <==> BlockUsed(a, g, x) || x in xs + ys
    {
      assert BlockUsed(c, g, x) <==> BlockUsed(b, g, x) || x in ys;
    }
  }

  lemma SameThen(a: seq<Byte>, b: seq<Byte>, c: seq<Byte>, lo: nat, hi: nat)
    requires Same(a, b, lo, hi) && Same(b, c, lo, hi)
    ensures Same(a, c, lo, hi)
  {
  }

  lemma SameLater(a: seq<Byte>, b: seq<Byte>, c: seq<Byte>, g: Geometry, xs: set<nat>, ys: set<nat>)
    requires Grown(a, b, g, xs) && Grown(b, c, g, ys)
    ensures Same(a, c, 0, DescOffset(0)) && Same(a, c, DescOffset(1), g.blockBitmap * BLOCK_SIZE)
    ensures Same(a, c, g.inodeTable * BLOCK_SIZE, g.DataStart() * BLOCK_SIZE) && Same(a, c, g.Beyond(), |a|)
  {
    GrownMeans(a, b, g, xs);
    GrownMeans(b, c, g, ys);
    SameThen(a, b, c, 0, DescOffset(0));
    SameThen(a, b, c, DescOffset(1), g.blockBitmap * BLOCK_SIZE);
    SameThen(a, b, c, g.inodeTable * BLOCK_SIZE, g.DataStart() * BLOCK_SIZE);
    SameThen(a, b, c, g.Beyond(), |a|);
  }

  lemma RestLater(a: seq<Byte>, b: seq<Byte>, c: seq<Byte>, g: Geometry, xs: set<nat>, ys: set<nat>)
    requires Grown(a, b, g, xs) && Grown(b, c, g, ys)
    ensures GroupOk(a, g) && GroupOk(c, g) && InodeBits(c, g) == InodeBits(a, g)
    ensures DescOf(a, 0) == DescOf(c, 0).(freeBlocks := DescOf(c, 0).freeBlocks + |xs| + |ys|)
    ensures forall x :: g.IsData(x) && x !in xs + ys ==> BlockAt(c, x) == BlockAt(a, x)
  {
    GrownMeans(a, b, g, xs);
    GrownMeans(b, c, g, ys);
  }

  lemma GrownThen(a: seq<Byte>, b: seq<Byte>, c: seq<Byte>, g: Geometry, xs: set<nat>, ys: set<nat>)
    requires Grown(a, b, g, xs) && Grown(b, c, g, ys)
    ensures Grown(a, c, g, xs + ys) && xs !! ys
  {
    TakenLater(a, b, c, g, xs, ys);
    UsedLater(a, b, c, g, xs, ys);
    SameLater(a, b, c, g, xs, ys);
    RestLater(a, b, c, g, xs, ys);
    assert GrownBody(a, c, g, xs + ys);
  }

  lemma DataIsNumbered(bytes: seq<Byte>, g: Geometry, b: nat)
    requires GroupOk(bytes, g) && g.IsData(b)
    ensures 1 <= b < WORD && HasBlock(bytes, b) &&
            BLOCK_SIZE * b >= g.DataStart() * BLOCK_SIZE >= g.inodeTable * BLOCK_SIZE
  {
    GroupMeans(bytes, g);
  }

  /** Writing to a block just taken is part of the same step. */
  lemma GrownWrite(a: seq<Byte>, b: seq<Byte>, c: seq<Byte>, g: Geometry, xs: set<nat>, block: nat, n: nat)
    requires Grown(a, b, g, xs) && block in xs && n <= BLOCK_SIZE && OnlyRange(b, c, block * BLOCK_SIZE, n)
    ensures Grown(a, c, g, xs)
  {
    GrownMeans(a, b, g, xs);
    DataIsNumbered(b, g, block);
    GroupMeans(a, g);
    WriteKeepsCounts(b, c, g, block, n);
    SameBeforeData(a, b, c, g, block, n);
    forall x: nat | x != block
      ensures BlockAt(c, x) == BlockAt(b, x)
    {
      OtherBlock(b, c, block, n, x);
    }
    WriteGrows(a, b, c, g, xs, block);
  }

  lemma OtherBlock(b: seq<Byte>, c: seq<Byte>, block: nat, n: nat, x: nat)
    requires OnlyRange(b, c, block * BLOCK_SIZE, n) && n <= BLOCK_SIZE && x != block
    ensures BlockAt(c, x) == BlockAt(b, x)
  {
    BlockKept(b, c, block * BLOCK_SIZE, n, x);
  }

  lemma WriteGrows(a: seq<Byte>, b: seq<Byte>, c: seq<Byte>, g: Geometry, xs: set<nat>, block: nat)
    requires GrownBody(a, b, g, xs) && block in xs && GroupOk(c, g) && DescOf(c, 0) == DescOf(b, 0)
    requires BlockBits(c, g) == BlockBits(b, g) && InodeBits(c, g) == InodeBits(b, g)
    requires Same(a, c, 0, DescOffset(0)) && Same(a, c, DescOffset(1), g.blockBitmap * BLOCK_SIZE)
    requires Same(a, c, g.inodeTable * BLOCK_SIZE, g.DataStart() * BLOCK_SIZE) && Same(a, c, g.Beyond(), |a|)
    requires forall x: nat :: x != block ==> BlockAt(c, x) == BlockAt(b, x)
    ensures Grown(a, c, g, xs)
  {
    forall x: nat | x >= 1
      ensures BlockUsed(c, g, x) <==> BlockUsed(a, g, x) || x in xs
    {
      assert BlockUsed(c, g, x) <==> BlockUsed(b, g, x);
    }
    assert GrownBody(a, c, g, xs);
  }

  lemma WriteKeepsCounts(b: seq<Byte>, c: seq<Byte>, g: Geometry, block: nat, n: nat)
    requires GroupOk(b, g) && g.IsData(block) && OnlyRange(b, c, block * BLOCK_SIZE, n)
    ensures GroupOk(c, g) && DescOf(c, 0) == DescOf(b, 0)
    ensures BlockBits(c, g) == BlockBits(b, g) && InodeBits(c, g) == InodeBits(b, g)
  {
    DataIsNumbered(b, g, block);
    CountedKept(b, c, g);
  }

  lemma SameBeforeData(a: seq<Byte>, b: seq<Byte>, c: seq<Byte>, g: Geometry, block: nat, n: nat)
    requires OnlyRange(b, c, block * BLOCK_SIZE, n) && g.Ok(|a|) && g.IsData(block)
    requires Same(a, b, 0, DescOffset(0)) && Same(a, b, DescOffset(1), g.blockBitmap * BLOCK_SIZE)
    requires Same(a, b, g.inodeTable * BLOCK_SIZE, g.DataStart() * BLOCK_SIZE) && Same(a, b, g.Beyond(), |a|)
    requires n <= BLOCK_SIZE
    ensures Same(a, c, 0, DescOffset(0)) && Same(a, c, DescOffset(1), g.blockBitmap * BLOCK_SIZE)
    ensures Same(a, c, g.inodeTable * BLOCK_SIZE, g.DataStart() * BLOCK_SIZE) && Same(a, c, g.Beyond(), |a|)
  {
    BeforeData(g, |a|);
    OnlyRangeSame(b, c, block * BLOCK_SIZE, n, 0, g.DataStart() * BLOCK_SIZE);
    OnlyRangeSame(b, c, block * BLOCK_SIZE, n, g.Beyond(), |b|);
  }

  lemma BeforeData(g: Geometry, size: nat)
    requires g.Ok(size)
    ensures DescOffset(1) <= g.blockBitmap * BLOCK_SIZE <= g.inodeTable * BLOCK_SIZE <= g.DataStart() * BLOCK_SIZE
    ensures g.DataStart() * BLOCK_SIZE <= g.Beyond() <= size
  {
  }

  /** Data written to a free block, which is then taken. */
  lemma GrownByOne(a: seq<Byte>, b: seq<Byte>, c: seq<Byte>, g: Geometry, block: nat, n: nat)
    requires GroupOk(a, g) && g.IsData(block) && !BlockUsed(a, g, block) && n <= BLOCK_SIZE
    requires OnlyRange(a, b, block * BLOCK_SIZE, n) && BlockBits(b, g) == BlockBits(a, g) &&
             InodeBits(b, g) == InodeBits(a, g)
    requires DescOf(b, 0) == DescOf(a, 0) && GroupOk(c, g) && MetaOnly(b, c, g)
    requires BitSet(BlockBits(b, g), BlockBits(c, g), BitNo(block)) && InodeBits(c, g) == InodeBits(b, g)
    requires DescOf(c, 0).(freeBlocks := DescOf(c, 0).freeBlocks + 1) == DescOf(b, 0)
    ensures Grown(a, c, g, {block}) && Slice(c, block * BLOCK_SIZE, n) == Slice(b, block * BLOCK_SIZE, n)
  {
    DataIsNumbered(a, g, block);
    GroupMeans(a, g);
    forall x: nat | x >= 1
      ensures BlockUsed(c, g, x) <==> BlockUsed(a, g, x) || x == block
    {
    }
    forall x: nat | g.IsData(x) && x != block
      ensures BlockAt(c, x) == BlockAt(a, x)
    {
      DataIsNumbered(a, g, x);
      BlockKept(a, b, block * BLOCK_SIZE, n, x);
      SameSlice(b, c, g.inodeTable * BLOCK_SIZE, |b|, x * BLOCK_SIZE, BLOCK_SIZE);
    }
    SameSlice(b, c, g.inodeTable * BLOCK_SIZE, |b|, block * BLOCK_SIZE, n);
    GrownByOneSame(a, b, c, g, block, n);
    assert GrownBody(a, c, g, {block});
  }

  lemma GrownByOneSame(a: seq<Byte>, b: seq<Byte>, c: seq<Byte>, g: Geometry, block: nat, n: nat)
    requires OnlyRange(a, b, block * BLOCK_SIZE, n) && MetaOnly(b, c, g) && g.Ok(|a|) && g.IsData(block) &&
             n <= BLOCK_SIZE
    ensures Same(a, c, 0, DescOffset(0)) && Same(a, c, DescOffset(1), g.blockBitmap * BLOCK_SIZE)
    ensures Same(a, c, g.inodeTable * BLOCK_SIZE, g.DataStart() * BLOCK_SIZE) && Same(a, c, g.Beyond(), |a|)
  {
    BeforeData(g, |a|);
    OnlyRangeSame(a, b, block * BLOCK_SIZE, n, 0, g.DataStart() * BLOCK_SIZE);
    OnlyRangeSame(a, b, block * BLOCK_SIZE, n, g.Beyond(), |a|);
  }

  // ----- what growth keeps

  lemma GrownInode(before: seq<Byte>, after: seq<Byte>, g: Geometry, taken: set<nat>, ino: nat)
    requires Grown(before, after, g, taken) && g.IsInode(ino)
    ensures InodeNo(after, g, ino) == InodeNo(before, g, ino)
  {
    GrownMeans(before, after, g, taken);
    SameSlice(before, after, g.inodeTable * BLOCK_SIZE, g.DataStart() * BLOCK_SIZE,
              InodeOffset(g.inodeTable, BitNo(ino)), INODE_SIZE);
  }

  /** Trees and data that do not involve the blocks taken are kept. */
  lemma TreesKept(before: seq<Byte>, after: seq<Byte>, g: Geometry, taken: set<nat>, ts: seq<Tree>, level: nat)
    requires Grown(before, after, g, taken) && StoredAll(before, ts, level)
    requires forall b :: b in BlocksOf(ts) ==> g.IsData(b) && b !in taken
    ensures StoredAll(after, ts, level)
  {
    GrownMeans(before, after, g, taken);
    StoredAllKept(before, after, ts, level);
  }

  lemma ChunksKept(before: seq<Byte>, after: seq<Byte>, g: Geometry, taken: set<nat>, blocks: seq<nat>,
                   data: seq<Byte>, k: nat)
    requires Grown(before, after, g, taken) && HoldChunks(before, blocks, data, k)
    requires forall b :: b in blocks ==> g.IsData(b) && b !in taken
    ensures HoldChunks(after, blocks, data, k)
  {
    GrownMeans(before, after, g, taken);
    forall i | 0 <= i < |blocks|
      ensures HoldsChunk(after, blocks[i], data, k + i)
    {
      assert blocks[i] in blocks && HoldsChunk(before, blocks[i], data, k + i);
      DataIsNumbered(before, g, blocks[i]);
      ChunkKept(before, after, blocks[i], data, k + i);
    }
  }
}
