/** What a volume holds: a root directory and files, and which steps leave which of them alone. */
module VolumeFiles {
  import opened Bytes
  import opened Bitmaps
  import opened DirectoryBlock
  import opened DirectoryFile
  import opened ImageFile
  import opened DiskFormat
  import opened Volume
  import opened FileTree
  import opened BlockGrowth

  // ----- frames

  /** Keeps `Touches` closed: what it says is in view only where a key is stated. */
  ghost predicate TouchKey(k: int) {
    true
  }

  /** Contents of blocks and inodes outside the given ones stay, and nothing is given back. */
  ghost predicate TouchesBody(before: seq<Byte>, after: seq<Byte>, g: Geometry, blocks: set<nat>, inos: set<nat>) {
    && GroupOk(before, g) && GroupOk(after, g)
    && (forall b: nat :: b >= 1 && BlockUsed(before, g, b) ==> BlockUsed(after, g, b))
    && (forall i: nat :: i >= 1 && InodeUsed(before, g, i) ==> InodeUsed(after, g, i))
    && (forall b: nat :: g.IsData(b) && b !in blocks ==> BlockAt(after, b) == BlockAt(before, b))
    && (forall i: nat :: g.IsInode(i) && i !in inos ==> InodeNo(after, g, i) == InodeNo(before, g, i))
    && Same(before, after, DescOffset(1), g.blockBitmap * BLOCK_SIZE) && Same(before, after, g.Beyond(), |before|)
  }

  ghost predicate Touches(before: seq<Byte>, after: seq<Byte>, g: Geometry, blocks: set<nat>, inos: set<nat>) {
    forall k {:trigger TouchKey(k)} :: TouchKey(k) ==> TouchesBody(before, after, g, blocks, inos)
  }

  lemma TouchesMeans(before: seq<Byte>, after: seq<Byte>, g: Geometry, blocks: set<nat>, inos: set<nat>)
    requires Touches(before, after, g, blocks, inos)
    ensures TouchesBody(before, after, g, blocks, inos)
  {
    assert TouchKey(0);
  }

  lemma TouchesNothing(bytes: seq<Byte>, g: Geometry)
    requires GroupOk(bytes, g)
    ensures Touches(bytes, bytes, g, {}, {})
  {
    assert TouchesBody(bytes, bytes, g, {}, {});
  }

  lemma TouchesThen(a: seq<Byte>, b: seq<Byte>, c: seq<Byte>, g: Geometry,
                    xs: set<nat>, ins: set<nat>, ys: set<nat>, jns: set<nat>)
    requires Touches(a, b, g, xs, ins) && Touches(b, c, g, ys, jns)
    ensures Touches(a, c, g, xs + ys, ins + jns)
  {
    TouchesMeans(a, b, g, xs, ins);
    TouchesMeans(b, c, g, ys, jns);
    assert TouchesBody(a, c, g, xs + ys, ins + jns);
  }

  lemma GrownTouches(before: seq<Byte>, after: seq<Byte>, g: Geometry, taken: set<nat>)
    requires Grown(before, after, g, taken)
    ensures Touches(before, after, g, taken, {})
  {
    GrownMeans(before, after, g, taken);
    forall i: nat | g.IsInode(i)
      ensures InodeNo(after, g, i) == InodeNo(before, g, i)
    {
      GrownInode(before, after, g, taken, i);
    }
    assert TouchesBody(before, after, g, taken, {});
  }

  /** A write to part of one block. */
  lemma BlockTouches(before: seq<Byte>, after: seq<Byte>, g: Geometry, block: nat)
    requires GroupOk(before, g) && g.IsData(block) && OnlyRange(before, after, block * BLOCK_SIZE, BLOCK_SIZE)
    ensures Touches(before, after, g, {block}, {})
  {
    GroupMeans(before, g);
    BeforeData(g, |before|);
    WriteKeepsCounts(before, after, g, block, BLOCK_SIZE);
    forall b: nat | b != block
      ensures BlockAt(after, b) == BlockAt(before, b)
    {
      OtherBlock(before, after, block, BLOCK_SIZE, b);
    }
    OnlyRangeSame(before, after, block * BLOCK_SIZE, BLOCK_SIZE, 0, g.DataStart() * BLOCK_SIZE);
    OnlyRangeSame(before, after, block * BLOCK_SIZE, BLOCK_SIZE, g.Beyond(), |before|);
    InodesBeforeData(before, after, g);
    assert TouchesBody(before, after, g, {block}, {});
  }

  lemma InodesBeforeData(before: seq<Byte>, after: seq<Byte>, g: Geometry)
    requires g.Ok(|before|) && Same(before, after, 0, g.DataStart() * BLOCK_SIZE)
    ensures forall i: nat :: g.IsInode(i) ==> InodeNo(after, g, i) == InodeNo(before, g, i)
  {
    forall i: nat | g.IsInode(i)
      ensures InodeNo(after, g, i) == InodeNo(before, g, i)
    {
      SameSlice(before, after, 0, g.DataStart() * BLOCK_SIZE, InodeOffset(g.inodeTable, BitNo(i)), INODE_SIZE);
    }
  }

  lemma OtherInode(before: seq<Byte>, after: seq<Byte>, g: Geometry, ino: nat, i: nat)
    requires Same(before, after, g.inodeTable * BLOCK_SIZE, InodeOffset(g.inodeTable, BitNo(ino)))
    requires Same(before, after, InodeOffset(g.inodeTable, BitNo(ino)) + INODE_SIZE, |before|)
    requires i != ino && i >= 1 && ino >= 1 && InodeOffset(g.inodeTable, i) <= |before|
    ensures InodeNo(after, g, i) == InodeNo(before, g, i)
  {
    var at := InodeOffset(g.inodeTable, BitNo(i));
    if i < ino {
      SameSlice(before, after, g.inodeTable * BLOCK_SIZE, InodeOffset(g.inodeTable, BitNo(ino)), at, INODE_SIZE);
    } else {
      SameSlice(before, after, InodeOffset(g.inodeTable, BitNo(ino)) + INODE_SIZE, |before|, at, INODE_SIZE);
    }
  }

  /** Storing one inode, with or without taking it. */
  lemma InodeTouches(before: seq<Byte>, after: seq<Byte>, g: Geometry, ino: nat)
    requires GroupOk(before, g) && GroupOk(after, g) && g.IsInode(ino)
    requires Same(before, after, DescOffset(1), g.blockBitmap * BLOCK_SIZE)
    requires Same(before, after, g.inodeTable * BLOCK_SIZE, InodeOffset(g.inodeTable, BitNo(ino)))
    requires Same(before, after, InodeOffset(g.inodeTable, BitNo(ino)) + INODE_SIZE, |before|)
    requires BlockBits(after, g) == BlockBits(before, g)
    requires forall i: nat :: i >= 1 && InodeUsed(before, g, i) ==> InodeUsed(after, g, i)
    ensures Touches(before, after, g, {}, {ino})
  {
    GroupMeans(before, g);
    BeforeData(g, |before|);
    forall i: nat | g.IsInode(i) && i != ino
      ensures InodeNo(after, g, i) == InodeNo(before, g, i)
    {
      OtherInode(before, after, g, ino, i);
    }
    forall b: nat | g.IsData(b)
      ensures BlockAt(after, b) == BlockAt(before, b)
    {
      DataIsNumbered(before, g, b);
      SameSlice(before, after, InodeOffset(g.inodeTable, BitNo(ino)) + INODE_SIZE, |before|, b * BLOCK_SIZE,
                BLOCK_SIZE);
    }
    forall b: nat | b >= 1 && BlockUsed(before, g, b)
      ensures BlockUsed(after, g, b)
    {
    }
    assert TouchesBody(before, after, g, {}, {ino});
  }

  /** A write to the super block. */
  lemma SuperTouches(before: seq<Byte>, after: seq<Byte>, g: Geometry)
    requires GroupOk(before, g) && OnlyRange(before, after, SUPER_BLOCK_NO * BLOCK_SIZE, SUPER_SIZE)
    ensures Touches(before, after, g, {}, {}) && DescOf(after, 0) == DescOf(before, 0)
    ensures BlockBits(after, g) == BlockBits(before, g) && InodeBits(after, g) == InodeBits(before, g)
  {
    GroupMeans(before, g);
    BeforeData(g, |before|);
    OnlyRangeSame(before, after, SUPER_BLOCK_NO * BLOCK_SIZE, SUPER_SIZE, DescOffset(0), |before|);
    CountedKept(before, after, g);
    forall i: nat | g.IsInode(i)
      ensures InodeNo(after, g, i) == InodeNo(before, g, i)
    {
      SameSlice(before, after, DescOffset(0), |before|, InodeOffset(g.inodeTable, BitNo(i)), INODE_SIZE);
    }
    forall b: nat | g.IsData(b)
      ensures BlockAt(after, b) == BlockAt(before, b)
    {
      DataIsNumbered(before, g, b);
      SameSlice(before, after, DescOffset(0), |before|, b * BLOCK_SIZE, BLOCK_SIZE);
    }
    assert TouchesBody(before, after, g, {}, {});
  }

  // ----- files

  /** A file: its inode, its bytes, the trees of its direct pointers and those of its indirect ones. */
  datatype File = File(ino: nat, data: seq<Byte>, direct: seq<Tree>, indirect: seq<Tree>) {
    ghost function AllBlocks(): set<nat> {
      BlocksOf(direct) + BlocksOf(indirect)
    }

    /** The data blocks, in the order of the file's bytes. */
    ghost function DataBlocks(): seq<nat> {
      LeavesOf(direct) + LeavesOf(indirect)
    }
  }

  /** The block pointers of an inode with these trees. */
  ghost function Pointers(direct: seq<Tree>, indirect: seq<Tree>): seq<nat> {
    if |direct| <= DIRECT_BLOCKS && |indirect| <= 3 then Padded(Roots(direct),
                                                                DIRECT_BLOCKS) + Padded(Roots(indirect), 3) else []
  }

  /** The `i`th indirect pointer leads to a tree of `i + 1` levels. */
  ghost predicate StoredByLevel(bytes: seq<Byte>, ts: seq<Tree>) {
    forall i :: 0 <= i < |ts| ==> Stored(bytes, ts[i], i + 1)
  }

  /** Keeps `FileOk` closed: what it says is in view only where a key is stated. */
  ghost predicate FileKey(k: int) {
    true
  }

  /** The image holds the file: inode, index blocks and data. */
  ghost predicate FileOkBody(bytes: seq<Byte>, g: Geometry, f: File) {
    && g.IsInode(f.ino) && InodeUsed(bytes, g, f.ino)
    && InodeNo(bytes, g, f.ino) == Inode(S_IFREG, Zeros(22), |f.data|, Pointers(f.direct, f.indirect))
    && (forall b :: b in f.AllBlocks() ==> g.IsData(b) && BlockUsed(bytes, g, b))
    && ApartAll(f.direct) && ApartAll(f.indirect) && BlocksOf(f.direct) !! BlocksOf(f.indirect)
    && StoredAll(bytes, f.direct, 0) && StoredByLevel(bytes, f.indirect)
    && HoldChunks(bytes, f.DataBlocks(), f.data, 0) && |f.DataBlocks()| == BlocksFor(|f.data|)
    && DirectFirst(f)
  }

  /** The direct pointers are used up before any other. */
  ghost predicate DirectFirst(f: File) {
    |f.direct| == if BlocksFor(|f.data|) < DIRECT_BLOCKS then BlocksFor(|f.data|) else DIRECT_BLOCKS
  }

  ghost predicate FileOk(bytes: seq<Byte>, g: Geometry, f: File) {
    forall k {:trigger FileKey(k)} :: FileKey(k) ==> FileOkBody(bytes, g, f)
  }

  lemma FileMeans(bytes: seq<Byte>, g: Geometry, f: File)
    requires FileOk(bytes, g, f)
    ensures FileOkBody(bytes, g, f)
  {
    assert FileKey(0);
  }

  lemma {:induction false} EachInBlocksOf(ts: seq<Tree>, i: nat, b: nat)
    requires i < |ts| && b in Blocks(ts[i])
    ensures b in BlocksOf(ts)
    decreases ts
  {
    if i < |ts| - 1 {
      EachInBlocksOf(ts[..|ts| - 1], i, b);
    }
  }

  /** A file none of whose blocks and not whose inode is touched is as it was. */
  lemma FileKept(before: seq<Byte>, after: seq<Byte>, g: Geometry, f: File, blocks: set<nat>, inos: set<nat>)
    requires FileOk(before, g, f) && Touches(before, after, g, blocks, inos)
    requires f.AllBlocks() !! blocks && f.ino !in inos
    ensures FileOk(after, g, f)
  {
    FileMeans(before, g, f);
    TouchesMeans(before, after, g, blocks, inos);
    FileBlocksKept(before, after, g, f, blocks);
    forall b | b in f.AllBlocks()
      ensures BlockUsed(after, g, b)
    {
      DataIsNumbered(before, g, b);
    }
    assert FileOkBody(after, g, f);
  }

  lemma FileBlocksKept(before: seq<Byte>, after: seq<Byte>, g: Geometry, f: File, blocks: set<nat>)
    requires FileOkBody(before, g, f) && GroupOk(before, g) && f.AllBlocks() !! blocks && |after| == |before|
    requires forall b: nat :: g.IsData(b) && b !in blocks ==> BlockAt(after, b) == BlockAt(before, b)
    ensures StoredAll(after, f.direct, 0) && StoredByLevel(after, f.indirect) &&
            HoldChunks(after, f.DataBlocks(), f.data, 0)
  {
    StoredAllKept(before, after, f.direct, 0);
    assert forall b :: b in f.AllBlocks() ==> g.IsData(b) && BlockAt(after, b) == BlockAt(before, b);
    FileTreesKept(before, after, f);
    FileChunksKept(before, after, g, f);
  }

  lemma FileTreesKept(before: seq<Byte>, after: seq<Byte>, f: File)
    requires StoredByLevel(before, f.indirect) && |after| == |before|
    requires forall b :: b in f.AllBlocks() ==> BlockAt(after, b) == BlockAt(before, b)
    ensures StoredByLevel(after, f.indirect)
  {
    forall i | 0 <= i < |f.indirect|
      ensures Stored(after, f.indirect[i], i + 1)
    {
      forall b | b in Blocks(f.indirect[i])
        ensures b in f.AllBlocks()
      {
        EachInBlocksOf(f.indirect, i, b);
      }
      StoredKept(before, after, f.indirect[i], i + 1);
    }
  }

  lemma FileChunksKept(before: seq<Byte>, after: seq<Byte>, g: Geometry, f: File)
    requires HoldChunks(before, f.DataBlocks(), f.data, 0) && GroupOk(before, g) && |after| == |before|
    requires forall b :: b in f.AllBlocks() ==> g.IsData(b) && BlockAt(after, b) == BlockAt(before, b)
    ensures HoldChunks(after, f.DataBlocks(), f.data, 0)
  {
    forall i | 0 <= i < |f.DataBlocks()|
      ensures HoldsChunk(after, f.DataBlocks()[i], f.data, i)
    {
      DataBlocksAreBlocks(f, f.DataBlocks()[i]);
      assert HoldsChunk(before, f.DataBlocks()[i], f.data, 0 + i);
      DataIsNumbered(before, g, f.DataBlocks()[i]);
      ChunkKept(before, after, f.DataBlocks()[i], f.data, i);
    }
  }

  lemma DataBlocksAreBlocks(f: File, b: nat)
    requires b in f.DataBlocks()
    ensures b in f.AllBlocks()
  {
    if b in LeavesOf(f.direct) {
      LeavesOfAreBlocks(f.direct, b);
    } else {
      LeavesOfAreBlocks(f.indirect, b);
    }
  }
}
