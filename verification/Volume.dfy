/** The first block group of an image, through which mkfs allocates: geometry, bitmaps, inodes, blocks. */
module Volume {
  import opened Bytes
  import opened Bitmaps
  import opened DirectoryBlock
  import opened ImageFile
  import opened DiskFormat

  /** Where the parts of the first group are. They never move once the image is made. */
  datatype Geometry = Geometry(groups: nat, blockBitmap: nat, inodeBitmap: nat, inodeTable: nat,
                               inodesPerGroup: nat, blocksCount: nat, inodesCount: nat) {
    /** The first block behind the inode table. */
    function DataStart(): nat {
      inodeTable + (inodesPerGroup * INODE_SIZE + BLOCK_SIZE - 1) / BLOCK_SIZE
    }

    /** How many blocks the first group has; they are numbered from `SUPER_BLOCK_NO` on. */
    function GroupBlocks(): nat {
      if blocksCount < BLOCKS_PER_GROUP then blocksCount else BLOCKS_PER_GROUP
    }

    /** Descriptors, bitmaps, inode table and data follow one another, and all fit into the image. */
    ghost predicate Ok(size: nat) {
      && groups >= 1 && 0 < inodesPerGroup <= BLOCKS_PER_GROUP && 0 < inodesCount
      && DescOffset(groups) <= blockBitmap * BLOCK_SIZE
      && inodeBitmap == blockBitmap + 1 && inodeTable == inodeBitmap + 1
      && DataStart() <= GroupBlocks()
      && (blocksCount + SUPER_BLOCK_NO) * BLOCK_SIZE == size && size < WORD
    }

    /** Where the first group ends. */
    function Beyond(): nat {
      (GroupBlocks() + SUPER_BLOCK_NO) * BLOCK_SIZE
    }

    ghost predicate IsData(block: nat) {
      DataStart() <= block < GroupBlocks() + SUPER_BLOCK_NO
    }

    ghost predicate IsInode(ino: nat) {
      1 <= ino <= inodesPerGroup
    }
  }

  // ----- what stays the same

  ghost predicate Same(before: seq<Byte>, after: seq<Byte>, lo: nat, hi: nat) {
    && |after| == |before|
    && forall k :: lo <= k < hi && k < |before| ==> after[k] == before[k]
  }

  lemma SameSlice(before: seq<Byte>, after: seq<Byte>, lo: nat, hi: nat, at: nat, n: nat)
    requires Same(before, after, lo, hi) && lo <= at && at + n <= hi
    ensures Slice(after, at, n) == Slice(before, at, n)
  {
  }

  lemma OnlyRangeSame(before: seq<Byte>, after: seq<Byte>, at: nat, n: nat, lo: nat, hi: nat)
    requires OnlyRange(before, after, at, n) && (hi <= at || at + n <= lo)
    ensures Same(before, after, lo, hi)
  {
  }

  // ----- the state of the first group

  ghost function BlockBits(bytes: seq<Byte>, g: Geometry): seq<Byte> {
    BlockAt(bytes, g.blockBitmap)
  }

  ghost function InodeBits(bytes: seq<Byte>, g: Geometry): seq<Byte> {
    BlockAt(bytes, g.inodeBitmap)
  }

  ghost function InodeNo(bytes: seq<Byte>, g: Geometry, ino: nat): (n: Inode)
    ensures n.Fits()
  {
    InodeOf(bytes, g.inodeTable, BitNo(ino))
  }

  /** Blocks, like inodes, are numbered from 1 and have their bits from 0 on. */
  function BitNo(number: nat): nat {
    if number == 0 then 0 else number - 1
  }

  ghost predicate BlockUsed(bytes: seq<Byte>, g: Geometry, block: nat) {
    Bit(BlockBits(bytes, g), BitNo(block))
  }

  ghost predicate InodeUsed(bytes: seq<Byte>, g: Geometry, ino: nat) {
    Bit(InodeBits(bytes, g), BitNo(ino))
  }

  /** The image has the geometry, and its first descriptor says so. */
  ghost predicate HasGeometry(bytes: seq<Byte>, g: Geometry) {
    && g.Ok(|bytes|)
    && var d := DescOf(bytes, 0);
       d.blockBitmap == g.blockBitmap && d.inodeBitmap == g.inodeBitmap && d.inodeTable == g.inodeTable
  }

  /** The free counts of the first group are the clear bits of its bitmaps; what is before the data is in use. */
  ghost predicate Counted(bytes: seq<Byte>, g: Geometry) {
    && HasGeometry(bytes, g)
    && DescOf(bytes, 0).freeBlocks == Clear(BlockBits(bytes, g), g.GroupBlocks())
    && DescOf(bytes, 0).freeInodes == Clear(InodeBits(bytes, g), g.inodesPerGroup)
    && forall b: nat :: 1 <= b < g.DataStart() ==> BlockUsed(bytes, g, b)
  }

  /** Keeps `GroupOk` closed: what it says is in view only where a key is stated. */
  ghost predicate GroupKey(k: int) {
    true
  }

  /** `Counted`, sealed. */
  ghost predicate GroupOk(bytes: seq<Byte>, g: Geometry) {
    forall k {:trigger GroupKey(k)} :: GroupKey(k) ==> Counted(bytes, g)
  }

  lemma GroupMeans(bytes: seq<Byte>, g: Geometry)
    requires GroupOk(bytes, g)
    ensures Counted(bytes, g)
  {
    assert GroupKey(0);
  }

  // ----- what writing one part keeps of the others

  /** At most the first descriptor and the bitmaps of the first group changed. */
  ghost predicate MetaOnly(before: seq<Byte>, after: seq<Byte>, g: Geometry) {
    && Same(before, after, 0, DescOffset(0)) && Same(before, after, DescOffset(1), g.blockBitmap * BLOCK_SIZE)
    && Same(before, after, g.inodeTable * BLOCK_SIZE, |before|)
  }

  lemma UsedBefore(before: seq<Byte>, after: seq<Byte>, g: Geometry)
    requires Counted(before, g) && forall j: nat :: Bit(BlockBits(before, g), j) ==> Bit(BlockBits(after, g), j)
    ensures forall b: nat :: 1 <= b < g.DataStart() ==> BlockUsed(after, g, b)
  {
    forall b: nat | 1 <= b < g.DataStart()
      ensures BlockUsed(after, g, b)
    {
      assert BlockUsed(before, g, b);
    }
  }

  /** Writes behind the bitmaps keep the counts. */
  lemma CountedKept(before: seq<Byte>, after: seq<Byte>, g: Geometry)
    requires GroupOk(before, g) && Same(before, after, DescOffset(0), g.inodeTable * BLOCK_SIZE)
    ensures GroupOk(after, g)
    ensures BlockBits(after, g) == BlockBits(before, g) && InodeBits(after, g) == InodeBits(before, g)
    ensures DescOf(after, 0) == DescOf(before, 0)
  {
    GroupMeans(before, g);
    SameSlice(before, after, DescOffset(0), g.inodeTable * BLOCK_SIZE, DescOffset(0), DESC_SIZE);
    SameSlice(before, after, DescOffset(0), g.inodeTable * BLOCK_SIZE, g.blockBitmap * BLOCK_SIZE, BLOCK_SIZE);
    SameSlice(before, after, DescOffset(0), g.inodeTable * BLOCK_SIZE, g.inodeBitmap * BLOCK_SIZE, BLOCK_SIZE);
    UsedBefore(before, after, g);
    assert Counted(after, g);
  }

  // ----- setting bits

  /** The image with bit `i` of a bitmap block set. */
  function WithBitSet(bytes: seq<Byte>, bitmap: nat, i: nat): (after: seq<Byte>)
    requires HasBlock(bytes, bitmap) && i < BITS * BLOCK_SIZE
    ensures |after| == |bytes|
  {
    var at := bitmap * BLOCK_SIZE + i / BITS;
    bytes[at := WithBit(bytes[at], i % BITS)]
  }

  lemma BitSetInImage(bytes: seq<Byte>, bitmap: nat, i: nat)
    requires HasBlock(bytes, bitmap) && i < BITS * BLOCK_SIZE
    ensures var after := WithBitSet(bytes, bitmap, i);
            && BitSet(BlockAt(bytes, bitmap), BlockAt(after, bitmap), i)
            && OnlyRange(bytes, after, bitmap * BLOCK_SIZE, BLOCK_SIZE)
  {
    var b := BlockAt(bytes, bitmap);
    var after := WithBitSet(bytes, bitmap, i);
    SetInByte(b, i);
    assert BlockAt(after, bitmap) == b[i / BITS := WithBit(b[i / BITS], i % BITS)];
  }

  /** The image with another first descriptor. */
  function WithDesc(bytes: seq<Byte>, d: GroupDesc): (after: seq<Byte>)
    requires DescOffset(1) <= |bytes| && d.Fits()
    ensures |after| == |bytes|
  {
    Overwrite(bytes, DescOffset(0), EncodeDesc(d))
  }

  lemma DescWritten(bytes: seq<Byte>, d: GroupDesc)
    requires DescOffset(1) <= |bytes| && d.Fits()
    ensures DescOf(WithDesc(bytes, d), 0) == d
    ensures OnlyRange(bytes, WithDesc(bytes, d), DescOffset(0), DESC_SIZE)
  {
    Overwritten(bytes, DescOffset(0), EncodeDesc(d));
    DescRoundTrip(d);
  }

  /** One bit and the first descriptor: what changes when something is taken. */
  lemma TakeWrites(bytes: seq<Byte>, g: Geometry, bitmap: nat, i: nat, d: GroupDesc)
    requires g.Ok(|bytes|) && d.Fits() && i < BITS * BLOCK_SIZE && (bitmap == g.blockBitmap || bitmap == g.inodeBitmap)
    ensures HasBlock(bytes, bitmap) && DescOffset(1) <= |bytes|
    ensures var after := WithDesc(WithBitSet(bytes, bitmap, i), d);
            && MetaOnly(bytes, after, g) && DescOf(after, 0) == d
            && BitSet(BlockAt(bytes, bitmap), BlockAt(after, bitmap), i)
            && (bitmap == g.blockBitmap ==> InodeBits(after, g) == InodeBits(bytes, g))
            && (bitmap == g.inodeBitmap ==> BlockBits(after, g) == BlockBits(bytes, g))
  {
    var middle := WithBitSet(bytes, bitmap, i);
    var after := WithDesc(middle, d);
    var other := if bitmap == g.blockBitmap then g.inodeBitmap else g.blockBitmap;
    BitSetInImage(bytes, bitmap, i);
    DescWritten(middle, d);
    BlockKept(middle, after, DescOffset(0), DESC_SIZE, bitmap);
    BlockKept(middle, after, DescOffset(0), DESC_SIZE, other);
    BlockKept(bytes, middle, bitmap * BLOCK_SIZE, BLOCK_SIZE, other);
    TakeRanges(bytes, middle, after, g, bitmap);
  }

  lemma TakeRanges(bytes: seq<Byte>, middle: seq<Byte>, after: seq<Byte>, g: Geometry, bitmap: nat)
    requires g.Ok(|bytes|) && (bitmap == g.blockBitmap || bitmap == g.inodeBitmap)
    requires OnlyRange(bytes, middle, bitmap * BLOCK_SIZE, BLOCK_SIZE) &&
             OnlyRange(middle, after, DescOffset(0), DESC_SIZE)
    ensures MetaOnly(bytes, after, g)
  {
  }

  /** Taking a block: its bit is set, and the count of free blocks is one less. */
  lemma BlockTaken(bytes: seq<Byte>, g: Geometry, block: nat)
    requires GroupOk(bytes, g) && g.IsData(block) && !BlockUsed(bytes, g, block)
    ensures HasBlock(bytes, g.blockBitmap) && DescOffset(1) <= |bytes| && 1 <= block && BitNo(block) < BITS * BLOCK_SIZE
    ensures DescOf(bytes, 0).freeBlocks > 0
    ensures var d := DescOf(bytes, 0);
            var after := WithDesc(WithBitSet(bytes, g.blockBitmap, BitNo(block)), d.(freeBlocks := d.freeBlocks - 1));
            && GroupOk(after, g) && MetaOnly(bytes, after, g)
            && BitSet(BlockBits(bytes, g), BlockBits(after, g), BitNo(block)) &&
               InodeBits(after, g) == InodeBits(bytes, g)
            && DescOf(after, 0) == d.(freeBlocks := d.freeBlocks - 1)
  {
    GroupMeans(bytes, g);
    SomeClearCounts(BlockBits(bytes, g), g.GroupBlocks(), BitNo(block));
    var d := DescOf(bytes, 0).(freeBlocks := DescOf(bytes, 0).freeBlocks - 1);
    TakeWrites(bytes, g, g.blockBitmap, BitNo(block), d);
    var after := WithDesc(WithBitSet(bytes, g.blockBitmap, BitNo(block)), d);
    ClearAfterSet(BlockBits(bytes, g), BlockBits(after, g), BitNo(block), g.GroupBlocks());
    UsedBefore(bytes, after, g);
    assert Counted(after, g);
  }

  /** Taking an inode: its bit is set, and the count of free inodes is one less. */
  lemma InodeTaken(bytes: seq<Byte>, g: Geometry, ino: nat)
    requires GroupOk(bytes, g) && g.IsInode(ino) && !InodeUsed(bytes, g, ino)
    ensures HasBlock(bytes, g.inodeBitmap) && DescOffset(1) <= |bytes| && BitNo(ino) < BITS * BLOCK_SIZE
    ensures DescOf(bytes, 0).freeInodes > 0
    ensures var d := DescOf(bytes, 0);
            var after := WithDesc(WithBitSet(bytes, g.inodeBitmap, BitNo(ino)), d.(freeInodes := d.freeInodes - 1));
            && GroupOk(after, g) && MetaOnly(bytes, after, g)
            && BitSet(InodeBits(bytes, g), InodeBits(after, g), BitNo(ino)) &&
               BlockBits(after, g) == BlockBits(bytes, g)
            && DescOf(after, 0) == d.(freeInodes := d.freeInodes - 1)
  {
    GroupMeans(bytes, g);
    SomeClearCounts(InodeBits(bytes, g), g.inodesPerGroup, BitNo(ino));
    var d := DescOf(bytes, 0).(freeInodes := DescOf(bytes, 0).freeInodes - 1);
    TakeWrites(bytes, g, g.inodeBitmap, BitNo(ino), d);
    var after := WithDesc(WithBitSet(bytes, g.inodeBitmap, BitNo(ino)), d);
    ClearAfterSet(InodeBits(bytes, g), InodeBits(after, g), BitNo(ino), g.inodesPerGroup);
    UsedBefore(bytes, after, g);
    assert Counted(after, g);
  }
}
