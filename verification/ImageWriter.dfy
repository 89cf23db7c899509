/** The operations of mkfs on an image, one structure at a time. */
module ImageWriter {
  import opened Bytes
  import opened Bitmaps
  import opened DirectoryBlock
  import opened ImageFile
  import opened DiskFormat
  import opened Volume

  /**
   The number of groups that alloc_block and alloc_inode_no search. The conditional expression takes the whole
   sum as its condition, not only the remainder.
   */
  function GroupsSearched(count: nat, perGroup: nat): nat
    requires perGroup > 0
  {
    if count / perGroup + count % perGroup != 0 then 1 else 0
  }

  /** Whatever there is, one group is searched; and none if there is nothing. */
  lemma OneGroup(count: nat, perGroup: nat)
    requires perGroup > 0
    ensures GroupsSearched(count, perGroup) == if count > 0 then 1 else 0
  {
    if count < perGroup {
      SmallQuotient(count, perGroup);
    } else {
      LargeQuotient(count, perGroup);
    }
  }

  lemma SmallQuotient(a: nat, b: nat)
    requires a < b
    ensures a / b == 0 && a % b == a
  {
  }

  lemma LargeQuotient(a: nat, b: nat)
    requires 0 < b <= a
    ensures a / b > 0
  {
  }

  class Mkfs {
    const img: Image
    var super: SuperBlock
    ghost const g: Geometry
    /** What the other groups have free. */
    ghost const restBlocks: nat
    ghost const restInodes: nat

    constructor (img: Image, super: SuperBlock, ghost g: Geometry, ghost restBlocks: nat, ghost restInodes: nat)
      ensures this.img == img && this.super == super && this.g == g
      ensures this.restBlocks == restBlocks && this.restInodes == restInodes
    {
      this.img, this.super, this.g := img, super, g;
      this.restBlocks, this.restInodes := restBlocks, restInodes;
    }

    /** The free counts of the super block in memory are the sums over the groups. */
    ghost predicate Synced()
      reads img`bytes, this`super
    {
      && Valid()
      && super.freeBlocks == DescOf(img.bytes, 0).freeBlocks + restBlocks
      && super.freeInodes == DescOf(img.bytes, 0).freeInodes + restInodes
    }

    /** What every operation keeps: the first group is accounted for, and the super block in memory fits it. */
    ghost predicate Valid()
      reads img`bytes, this`super
    {
      && GroupOk(img.bytes, g) && super.Fits()
      && super.blocksCount == g.blocksCount && super.inodesPerGroup == g.inodesPerGroup
      && super.inodesCount == g.inodesCount
    }

    /** get_block_group_metadata. */
    method GetDesc(group: nat) returns (d: GroupDesc)
      requires DescOffset(group) + DESC_SIZE <= |img.bytes|
      modifies img`pos
      ensures d == DescOf(img.bytes, group)
    {
      img.Seek(DescOffset(group));
      var s := img.Read(DESC_SIZE);
      d := DecodeDesc(s);
    }

    /** update_block_group_metadata. */
    method PutDesc(group: nat, d: GroupDesc)
      requires DescOffset(group) + DESC_SIZE <= |img.bytes| && d.Fits()
      modifies img`pos, img`bytes
      ensures img.bytes == Overwrite(old(img.bytes), DescOffset(group), EncodeDesc(d))
    {
      img.Seek(DescOffset(group));
      img.Write(EncodeDesc(d));
    }

    /** The common part of alloc_block_from_block_group and alloc_inode_no_from_block_group. */
    method FirstFree(bitmap: nat) returns (found: bool, i: nat)
      requires HasBlock(img.bytes, bitmap)
      modifies img`pos
      ensures found ==> FirstClear(BlockAt(img.bytes, bitmap), i)
      ensures !found ==> forall j: nat :: Bit(BlockAt(img.bytes, bitmap), j)
    {
      img.Seek(bitmap * BLOCK_SIZE);
      var bits := img.Read(BLOCK_SIZE);
      found, i := FindClear(bits);
    }

    /** alloc_block_from_block_group, for the first group; 0 if it has no block left. */
    method AllocBlockFromGroup() returns (block: nat)
      requires Valid()
      modifies img`pos
      ensures block == 0 <==> DescOf(img.bytes, 0).freeBlocks == 0
      ensures block != 0 ==> g.IsData(block) && !BlockUsed(img.bytes, g, block)
      ensures block != 0 ==> forall b: nat :: 1 <= b < block ==> BlockUsed(img.bytes, g, b)
    {
      GroupMeans(img.bytes, g);
      var d := GetDesc(0);
      block := 0;
      if d.freeBlocks > 0 {
        var found, i := FirstFree(d.blockBitmap);
        FreeBlockFound(img.bytes, g, found, i);
        if found {
          block := i + SUPER_BLOCK_NO;
        }
      }
    }

    /** alloc_block: the search goes through the first group only, and a failure ends the program. */
    method AllocBlock() returns (ok: bool, block: nat)
      requires Valid()
      modifies img`pos
      ensures ok <==> DescOf(img.bytes, 0).freeBlocks > 0
      ensures ok ==> g.IsData(block) && !BlockUsed(img.bytes, g, block)
      ensures ok ==> forall b: nat :: 1 <= b < block ==> BlockUsed(img.bytes, g, b)
    {
      GroupMeans(img.bytes, g);
      OneGroup(super.blocksCount, BLOCKS_PER_GROUP);
      ok, block := false, 0;
      if GroupsSearched(super.blocksCount, BLOCKS_PER_GROUP) > 0 {
        block := AllocBlockFromGroup();
        ok := block > 0 && block < super.blocksCount + SUPER_BLOCK_NO;
      }
    }

    /** alloc_inode_no_from_block_group, for the first group; 0 if it has no inode left. */
    method AllocInodeFromGroup() returns (ino: nat)
      requires Valid()
      modifies img`pos
      ensures ino == 0 <==> DescOf(img.bytes, 0).freeInodes == 0
      ensures ino != 0 ==> g.IsInode(ino) && !InodeUsed(img.bytes, g, ino)
      ensures ino != 0 ==> forall n: nat :: 1 <= n < ino ==> InodeUsed(img.bytes, g, n)
    {
      GroupMeans(img.bytes, g);
      var d := GetDesc(0);
      ino := 0;
      if d.freeInodes > 0 {
        var found, i := FirstFree(d.inodeBitmap);
        FreeInodeFound(img.bytes, g, found, i);
        if found {
          ino := i + 1;
        }
      }
    }

    /** alloc_inode_no, likewise. */
    method AllocInode() returns (ok: bool, ino: nat)
      requires Valid()
      modifies img`pos
      ensures ok <==> DescOf(img.bytes, 0).freeInodes > 0
      ensures ok ==> g.IsInode(ino) && !InodeUsed(img.bytes, g, ino)
      ensures ok ==> forall n: nat :: 1 <= n < ino ==> InodeUsed(img.bytes, g, n)
    {
      GroupMeans(img.bytes, g);
      OneGroup(super.inodesCount, super.inodesPerGroup);
      ok, ino := false, 0;
      if GroupsSearched(super.inodesCount, super.inodesPerGroup) > 0 {
        ino := AllocInodeFromGroup();
        ok := ino != 0;
      }
    }

    /** update_block_bitmap. */
    method UpdateBlockBitmap(block: nat)
      requires Valid() && g.IsData(block) && !BlockUsed(img.bytes, g, block)
      modifies img`pos, img`bytes
      ensures Valid() && MetaOnly(old(img.bytes), img.bytes, g)
      ensures BitSet(old(BlockBits(img.bytes, g)), BlockBits(img.bytes, g), BitNo(block))
      ensures InodeBits(img.bytes, g) == old(InodeBits(img.bytes, g))
      ensures DescOf(img.bytes, 0).(freeBlocks := DescOf(img.bytes, 0).freeBlocks + 1) == old(DescOf(img.bytes, 0))
    {
      BlockTaken(img.bytes, g, block);
      InFirstGroup(img.bytes, g, block);
      var group := (block - SUPER_BLOCK_NO) / BLOCKS_PER_GROUP;
      var i := (block - SUPER_BLOCK_NO) % BLOCKS_PER_GROUP;
      var d := GetDesc(group);
      SetBitAndDesc(d.blockBitmap, i, group, d.(freeBlocks := d.freeBlocks - 1));
    }

    /** seek_inode: leaves the cursor at the inode and returns its group's descriptor. */
    method SeekInode(ino: nat) returns (d: GroupDesc)
      requires Valid() && g.IsInode(ino)
      modifies img`pos
      ensures d == DescOf(img.bytes, 0) && img.pos == InodeOffset(g.inodeTable, BitNo(ino))
      ensures img.pos + INODE_SIZE <= |img.bytes|
    {
      GroupMeans(img.bytes, g);
      InodeInFirstGroup(g, ino);
      var group := (ino - 1) / super.inodesPerGroup;
      var index := (ino - 1) % super.inodesPerGroup;
      d := GetDesc(group);
      img.Seek(InodeOffset(d.inodeTable, index));
      InodeInside(img.bytes, g, ino);
    }

    /** get_inode. */
    method GetInode(ino: nat) returns (n: Inode)
      requires Valid() && g.IsInode(ino)
      modifies img`pos
      ensures n == InodeNo(img.bytes, g, ino)
    {
      var d := SeekInode(ino);
      var s := img.Read(INODE_SIZE);
      n := DecodeInode(s);
    }

    /** update_inode. */
    method UpdateInode(ino: nat, n: Inode)
      requires Valid() && g.IsInode(ino) && n.Fits()
      modifies img`pos, img`bytes
      ensures Valid() && InodeNo(img.bytes, g, ino) == n
      ensures OnlyRange(old(img.bytes), img.bytes, InodeOffset(g.inodeTable, BitNo(ino)), INODE_SIZE)
      ensures BlockBits(img.bytes, g) == old(BlockBits(img.bytes, g)) &&
              InodeBits(img.bytes, g) == old(InodeBits(img.bytes, g))
      ensures DescOf(img.bytes, 0) == old(DescOf(img.bytes, 0))
    {
      var d := SeekInode(ino);
      img.Write(EncodeInode(n));
      InodeWritten(old(img.bytes), g, ino, n);
    }

    /** write_inode: stores an inode and takes it. */
    method WriteInode(ino: nat, n: Inode)
      requires Valid() && g.IsInode(ino) && n.Fits() && !InodeUsed(img.bytes, g, ino)
      modifies img`pos, img`bytes
      ensures Valid() && InodeNo(img.bytes, g, ino) == n
      ensures InodeStored(old(img.bytes), img.bytes, g, ino)
      ensures BlockBits(img.bytes, g) == old(BlockBits(img.bytes, g))
      ensures BitSet(old(InodeBits(img.bytes, g)), InodeBits(img.bytes, g), BitNo(ino))
      ensures DescOf(img.bytes, 0).(freeInodes := DescOf(img.bytes, 0).freeInodes + 1) == old(DescOf(img.bytes, 0))
    {
      ghost var bytes0 := img.bytes;
      var d := SeekInode(ino);
      img.Write(EncodeInode(n));
      InodeWritten(bytes0, g, ino, n);
      ghost var bytes1 := img.bytes;
      TakeInode(ino, d);
      StoredAndTaken(bytes0, bytes1, img.bytes, g, ino);
    }

    /** update_inode_bitmap, and the descriptor with one free inode less. */
    method TakeInode(ino: nat, d: GroupDesc)
      requires Valid() && g.IsInode(ino) && !InodeUsed(img.bytes, g, ino) && d == DescOf(img.bytes, 0)
      modifies img`pos, img`bytes
      ensures Valid() && MetaOnly(old(img.bytes), img.bytes, g)
      ensures BlockBits(img.bytes, g) == old(BlockBits(img.bytes, g))
      ensures BitSet(old(InodeBits(img.bytes, g)), InodeBits(img.bytes, g), BitNo(ino))
      ensures DescOf(img.bytes, 0).(freeInodes := DescOf(img.bytes, 0).freeInodes + 1) == d
    {
      InodeTaken(img.bytes, g, ino);
      GroupMeans(img.bytes, g);
      InodeInFirstGroup(g, ino);
      var group := (ino - 1) / super.inodesPerGroup;
      var index := (ino - 1) % super.inodesPerGroup;
      SetBitAndDesc(d.inodeBitmap, index, group, d.(freeInodes := d.freeInodes - 1));
    }

    /** update_block_data. */
    method UpdateBlockData(block: nat, data: seq<Byte>)
      requires Valid() && g.IsData(block) && |data| <= BLOCK_SIZE
      modifies img`pos, img`bytes
      ensures Valid() && OnlyRange(old(img.bytes), img.bytes, block * BLOCK_SIZE, |data|)
      ensures Slice(img.bytes, block * BLOCK_SIZE, |data|) == data
      ensures BlockBits(img.bytes, g) == old(BlockBits(img.bytes, g)) &&
              InodeBits(img.bytes, g) == old(InodeBits(img.bytes, g))
      ensures DescOf(img.bytes, 0) == old(DescOf(img.bytes, 0))
    {
      DataInside(img.bytes, g, block);
      img.Seek(block * BLOCK_SIZE);
      img.Write(data);
      Overwritten(old(img.bytes), block * BLOCK_SIZE, data);
      WriteBehind(old(img.bytes), img.bytes, g, block * BLOCK_SIZE, |data|);
    }

    /** update_super_block. */
    method UpdateSuper()
      requires Valid()
      modifies img`pos, img`bytes
      ensures Valid() && SuperOf(img.bytes) == super
      ensures OnlyRange(old(img.bytes), img.bytes, SUPER_BLOCK_NO * BLOCK_SIZE, SUPER_SIZE)
    {
      GroupMeans(img.bytes, g);
      img.Seek(SUPER_BLOCK_NO * BLOCK_SIZE);
      img.Write(EncodeSuper(super));
      SuperWritten(old(img.bytes), g, super);
    }

    /** Sets a bit and stores the first descriptor. */
    method SetBitAndDesc(bitmap: nat, i: nat, group: nat, d: GroupDesc)
      requires HasBlock(img.bytes, bitmap) && i < BITS * BLOCK_SIZE && group == 0
      requires DescOffset(1) <= |img.bytes| && d.Fits()
      modifies img`pos, img`bytes
      ensures img.bytes == WithDesc(WithBitSet(old(img.bytes), bitmap, i), d)
    {
      SetBit(bitmap, i);
      PutDesc(group, d);
    }

    /** Reads the byte with bit `i` of a bitmap block, sets the bit and writes the byte back. */
    method SetBit(bitmap: nat, i: nat)
      requires HasBlock(img.bytes, bitmap) && i < BITS * BLOCK_SIZE
      modifies img`pos, img`bytes
      ensures img.bytes == WithBitSet(old(img.bytes), bitmap, i)
    {
      img.Seek(bitmap * BLOCK_SIZE + i / BITS);
      var bits := img.Read(1);
      var b := WithBit(bits[0], i % BITS);
      img.Skip(-1);
      img.Write([b]);
      assert img.bytes == WithBitSet(old(img.bytes), bitmap, i);
    }
  }

  lemma InFirstGroup(bytes: seq<Byte>, g: Geometry, block: nat)
    requires GroupOk(bytes, g) && g.IsData(block)
    ensures 1 <= block && (block - SUPER_BLOCK_NO) / BLOCKS_PER_GROUP == 0
    ensures (block - SUPER_BLOCK_NO) % BLOCKS_PER_GROUP == BitNo(block)
    ensures DescOf(bytes, 0).blockBitmap == g.blockBitmap
  {
    GroupMeans(bytes, g);
  }

  /** With a free block counted, the first clear bit is that of a data block of the group. */
  lemma FreeBlockFound(bytes: seq<Byte>, g: Geometry, found: bool, i: nat)
    requires GroupOk(bytes, g) && DescOf(bytes, 0).freeBlocks > 0
    requires found ==> FirstClear(BlockBits(bytes, g), i)
    requires !found ==> forall j: nat :: Bit(BlockBits(bytes, g), j)
    ensures found && g.IsData(i + SUPER_BLOCK_NO) && !BlockUsed(bytes, g, i + SUPER_BLOCK_NO)
    ensures forall b: nat :: 1 <= b < i + SUPER_BLOCK_NO ==> BlockUsed(bytes, g, b)
  {
    GroupMeans(bytes, g);
    var j := SomeClear(BlockBits(bytes, g), g.GroupBlocks());
    assert BlockUsed(bytes, g, i + SUPER_BLOCK_NO) <==> Bit(BlockBits(bytes, g), i);
  }

  lemma FreeInodeFound(bytes: seq<Byte>, g: Geometry, found: bool, i: nat)
    requires GroupOk(bytes, g) && DescOf(bytes, 0).freeInodes > 0
    requires found ==> FirstClear(InodeBits(bytes, g), i)
    requires !found ==> forall j: nat :: Bit(InodeBits(bytes, g), j)
    ensures found && g.IsInode(i + 1) && !InodeUsed(bytes, g, i + 1)
    ensures forall n: nat :: 1 <= n < i + 1 ==> InodeUsed(bytes, g, n)
  {
    GroupMeans(bytes, g);
    var j := SomeClear(InodeBits(bytes, g), g.inodesPerGroup);
  }

  lemma InodeInFirstGroup(g: Geometry, ino: nat)
    requires g.IsInode(ino)
    ensures (ino - 1) / g.inodesPerGroup == 0 && (ino - 1) % g.inodesPerGroup == BitNo(ino)
  {
  }

  /** The inode lies in the table, which lies in the image before the data. */
  lemma InodeInside(bytes: seq<Byte>, g: Geometry, ino: nat)
    requires GroupOk(bytes, g) && g.IsInode(ino)
    ensures g.inodeTable * BLOCK_SIZE <= InodeOffset(g.inodeTable, BitNo(ino))
    ensures InodeOffset(g.inodeTable, BitNo(ino)) + INODE_SIZE <= g.DataStart() * BLOCK_SIZE <= |bytes|
  {
    GroupMeans(bytes, g);
  }

  lemma DataInside(bytes: seq<Byte>, g: Geometry, block: nat)
    requires GroupOk(bytes, g) && g.IsData(block)
    ensures HasBlock(bytes, block) && g.inodeTable * BLOCK_SIZE <= g.DataStart() * BLOCK_SIZE <= block * BLOCK_SIZE
  {
    GroupMeans(bytes, g);
  }

  /** Writes behind the bitmaps leave the group accounted for. */
  lemma WriteBehind(before: seq<Byte>, after: seq<Byte>, g: Geometry, at: nat, n: nat)
    requires GroupOk(before, g) && OnlyRange(before, after, at, n) && g.inodeTable * BLOCK_SIZE <= at
    ensures GroupOk(after, g) && DescOf(after, 0) == DescOf(before, 0)
    ensures BlockBits(after, g) == BlockBits(before, g) && InodeBits(after, g) == InodeBits(before, g)
  {
    CountedKept(before, after, g);
  }

  lemma InodeWritten(bytes: seq<Byte>, g: Geometry, ino: nat, n: Inode)
    requires GroupOk(bytes, g) && g.IsInode(ino) && n.Fits()
    ensures InodeOffset(g.inodeTable, BitNo(ino)) + INODE_SIZE <= |bytes|
    ensures var after := Overwrite(bytes, InodeOffset(g.inodeTable, BitNo(ino)), EncodeInode(n));
            && GroupOk(after, g) && InodeNo(after, g, ino) == n && DescOf(after, 0) == DescOf(bytes, 0)
            && OnlyRange(bytes, after, InodeOffset(g.inodeTable, BitNo(ino)), INODE_SIZE)
            && BlockBits(after, g) == BlockBits(bytes, g) && InodeBits(after, g) == InodeBits(bytes, g)
  {
    InodeInside(bytes, g, ino);
    var at := InodeOffset(g.inodeTable, BitNo(ino));
    Overwritten(bytes, at, EncodeInode(n));
    InodeRoundTrip(n);
    WriteBehind(bytes, Overwrite(bytes, at, EncodeInode(n)), g, at, INODE_SIZE);
  }

  /** At most one inode, the first descriptor and the bitmaps changed. */
  ghost predicate InodeStored(before: seq<Byte>, after: seq<Byte>, g: Geometry, ino: nat) {
    && Same(before, after, 0, DescOffset(0)) && Same(before, after, DescOffset(1), g.blockBitmap * BLOCK_SIZE)
    && Same(before, after, g.inodeTable * BLOCK_SIZE, InodeOffset(g.inodeTable, BitNo(ino)))
    && Same(before, after, InodeOffset(g.inodeTable, BitNo(ino)) + INODE_SIZE, |before|)
  }

  lemma StoredAndTaken(bytes0: seq<Byte>, bytes1: seq<Byte>, bytes2: seq<Byte>, g: Geometry, ino: nat)
    requires GroupOk(bytes0, g) && g.IsInode(ino)
    requires OnlyRange(bytes0, bytes1, InodeOffset(g.inodeTable, BitNo(ino)), INODE_SIZE) && MetaOnly(bytes1, bytes2, g)
    ensures InodeStored(bytes0, bytes2, g, ino) && InodeNo(bytes2, g, ino) == InodeNo(bytes1, g, ino)
  {
    GroupMeans(bytes0, g);
    InodeInside(bytes0, g, ino);
    SameSlice(bytes1, bytes2, g.inodeTable * BLOCK_SIZE, |bytes1|, InodeOffset(g.inodeTable, BitNo(ino)), INODE_SIZE);
  }

  lemma SuperWritten(bytes: seq<Byte>, g: Geometry, sb: SuperBlock)
    requires GroupOk(bytes, g) && sb.Fits()
    ensures SUPER_BLOCK_NO * BLOCK_SIZE + SUPER_SIZE <= |bytes|
    ensures var after := Overwrite(bytes, SUPER_BLOCK_NO * BLOCK_SIZE, EncodeSuper(sb));
            && GroupOk(after, g) && SuperOf(after) == sb
            && OnlyRange(bytes, after, SUPER_BLOCK_NO * BLOCK_SIZE, SUPER_SIZE)
  {
    GroupMeans(bytes, g);
    Overwritten(bytes, SUPER_BLOCK_NO * BLOCK_SIZE, EncodeSuper(sb));
    SuperRoundTrip(sb);
    CountedKept(bytes, Overwrite(bytes, SUPER_BLOCK_NO * BLOCK_SIZE, EncodeSuper(sb)), g);
  }
}
