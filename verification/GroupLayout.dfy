/** All block groups of an image: where mkfs puts them, and the counts that must agree across them. */
module GroupLayout {
  import opened Units
  import opened Alignment
  import opened Bytes
  import opened Bitmaps
  import opened DirectoryBlock
  import opened ImageFile
  import opened DiskFormat
  import opened Volume

  function Ceil(a: nat, b: nat): nat
    requires b > 0
  {
    a / b + if a % b != 0 then 1 else 0
  }

  /** What mkfs is asked for: blocks behind the first one of the image, and inodes in each group. */
  datatype Plan = Plan(blocks: nat, inodes: nat) {
    ghost predicate Ok() {
      0 < inodes <= BLOCKS_PER_GROUP && (blocks + 1) * BLOCK_SIZE < WORD && blocks > 0
    }

    function Groups(): nat {
      Ceil(blocks, BLOCKS_PER_GROUP)
    }

    /** The inodes of all groups, as a 32-bit word. */
    function InodesCount(): nat {
      inodes * Groups() % WORD
    }

    function TableBlocks(): nat {
      Ceil(Groups() * DESC_SIZE, BLOCK_SIZE)
    }

    function InodeBlocks(): nat {
      Ceil(inodes * INODE_SIZE, BLOCK_SIZE)
    }

    /** The first block of a group. */
    function Start(k: nat): nat {
      SUPER_BLOCK_NO + k * BLOCKS_PER_GROUP
    }

    function Size(k: nat): nat {
      if k * BLOCKS_PER_GROUP < blocks then Min(BLOCKS_PER_GROUP, blocks - k * BLOCKS_PER_GROUP) else 0
    }

    /** Blocks of a group that hold no data. */
    function Used(k: nat): nat {
      if k == 0 then 3 + TableBlocks() + InodeBlocks() else 2 + InodeBlocks()
    }

    function Bitmap(k: nat): nat {
      if k == 0 then SUPER_BLOCK_NO + 1 + TableBlocks() else Start(k)
    }

    function Desc(k: nat): GroupDesc {
      GroupDesc(Bitmap(k), Bitmap(k) + 1, Bitmap(k) + 2, if Used(k) < Size(k) then Size(k) - Used(k) else 0, inodes)
    }

    /** The first group, as the rest of mkfs sees it. */
    ghost function First(): Geometry {
      Geometry(Groups(), Bitmap(0), Bitmap(0) + 1, Bitmap(0) + 2, inodes, blocks, InodesCount())
    }
  }

  // ----- where the groups lie

  /** The groups lie one behind the other, from block 1 on, and have all blocks of the image up to its end. */
  lemma GroupsTile(p: Plan, k: nat)
    requires k < p.Groups()
    ensures p.Start(0) == 1 && 0 < p.Size(k) <= BLOCKS_PER_GROUP
    ensures if k + 1 == p.Groups() then p.Start(k) + p.Size(k) == p.blocks + 1
            else p.Start(k) + p.Size(k) == p.Start(k + 1)
  {
  }

  /**
   Inside a group bitmaps and inode table lie one behind the other, behind super block and descriptors in the first;
   data come right behind. Descriptors and inodes take as many blocks as they fill.
   */
  lemma GroupInside(p: Plan, k: nat)
    requires k < p.Groups()
    ensures p.Bitmap(0) == 2 + p.TableBlocks() && (k > 0 ==> p.Bitmap(k) == p.Start(k))
    ensures p.Desc(k).inodeBitmap == p.Desc(k).blockBitmap + 1 && p.Desc(k).inodeTable == p.Desc(k).inodeBitmap + 1
    ensures p.Desc(k).blockBitmap == p.Bitmap(k) && p.Desc(k).inodeTable + p.InodeBlocks() == p.Start(k) + p.Used(k)
    ensures p.Groups() * DESC_SIZE <= p.TableBlocks() * BLOCK_SIZE < p.Groups() * DESC_SIZE + BLOCK_SIZE
    ensures p.inodes * INODE_SIZE <= p.InodeBlocks() * BLOCK_SIZE < p.inodes * INODE_SIZE + BLOCK_SIZE
  {
  }

  // ----- counts over all groups

  /** A group's free counts are the clear bits of its bitmaps. */
  ghost predicate GroupCounts(bytes: seq<Byte>, p: Plan, k: nat) {
    var d := DescOf(bytes, k);
    && d.freeBlocks == Clear(BlockAt(bytes, d.blockBitmap), p.Size(k))
    && d.freeInodes == Clear(BlockAt(bytes, d.inodeBitmap), p.inodes)
  }

  ghost function FreeBlocks(bytes: seq<Byte>, from: nat, n: nat): nat {
    if n <= from then 0 else FreeBlocks(bytes, from, n - 1) + DescOf(bytes, n - 1).freeBlocks
  }

  ghost function FreeInodes(bytes: seq<Byte>, from: nat, n: nat): nat {
    if n <= from then 0 else FreeInodes(bytes, from, n - 1) + DescOf(bytes, n - 1).freeInodes
  }

  /** Every group's counts are those of its bitmaps, and the super block's are the sums. */
  ghost predicate Conserved(bytes: seq<Byte>, p: Plan) {
    && (forall k: nat :: k < p.Groups() ==> GroupCounts(bytes, p, k))
    && SuperOf(bytes).freeBlocks == FreeBlocks(bytes, 0, p.Groups())
    && SuperOf(bytes).freeInodes == FreeInodes(bytes, 0, p.Groups())
  }

  /** A group other than the first, whose bitmaps lie at its start. */
  ghost predicate OtherGroup(bytes: seq<Byte>, p: Plan, k: nat) {
    && GroupCounts(bytes, p, k)
    && DescOf(bytes, k).blockBitmap == p.Start(k) && DescOf(bytes, k).inodeBitmap == p.Start(k) + 1
    && HasBlock(bytes, p.Start(k) + 1)
  }

  lemma {:induction false} SumsSplit(bytes: seq<Byte>, n: nat)
    requires n >= 1
    ensures FreeBlocks(bytes, 0, n) == DescOf(bytes, 0).freeBlocks + FreeBlocks(bytes, 1, n)
    ensures FreeInodes(bytes, 0, n) == DescOf(bytes, 0).freeInodes + FreeInodes(bytes, 1, n)
  {
    if n > 1 {
      SumsSplit(bytes, n - 1);
    } else {
      assert FreeBlocks(bytes, 0, 1) == FreeBlocks(bytes, 0, 0) + DescOf(bytes, 0).freeBlocks;
      assert FreeInodes(bytes, 0, 1) == FreeInodes(bytes, 0, 0) + DescOf(bytes, 0).freeInodes;
    }
  }

  lemma {:induction false} SumsSame(before: seq<Byte>, after: seq<Byte>, n: nat)
    requires forall k: nat :: 1 <= k < n ==> DescOf(after, k) == DescOf(before, k)
    ensures FreeBlocks(after, 1, n) == FreeBlocks(before, 1, n) && FreeInodes(after, 1, n) == FreeInodes(before, 1, n)
  {
    if n > 1 {
      SumsSame(before, after, n - 1);
    }
  }

  /** Steps that leave the other groups alone keep what is counted there. */
  lemma OthersSame(before: seq<Byte>, after: seq<Byte>, p: Plan, k: nat)
    requires Same(before, after, DescOffset(1), p.First().blockBitmap * BLOCK_SIZE)
    requires Same(before, after, p.First().Beyond(), |before|)
    requires 1 <= k < p.Groups() && OtherGroup(before, p, k)
    ensures OtherGroup(after, p, k) && DescOf(after, k) == DescOf(before, k)
  {
    TableHolds(p, k);
    SameSlice(before, after, DescOffset(1), p.First().blockBitmap * BLOCK_SIZE, DescOffset(k), DESC_SIZE);
    SameSlice(before, after, p.First().Beyond(), |before|, p.Start(k) * BLOCK_SIZE, BLOCK_SIZE);
    SameSlice(before, after, p.First().Beyond(), |before|, (p.Start(k) + 1) * BLOCK_SIZE, BLOCK_SIZE);
  }

  /** The descriptor table has room for every group, before the bitmaps of the first. */
  lemma TableHolds(p: Plan, k: nat)
    requires k < p.Groups()
    ensures DescOffset(k) + DESC_SIZE <= DescOffset(p.Groups()) <= p.Bitmap(0) * BLOCK_SIZE
    ensures k >= 1 ==> p.First().Beyond() <= p.Start(k) * BLOCK_SIZE
  {
  }

  /** With the first group accounted for and the super block its sum with the rest, everything is conserved. */
  lemma AllConserved(bytes: seq<Byte>, p: Plan, restBlocks: nat, restInodes: nat)
    requires p.Groups() >= 1 && GroupOk(bytes, p.First()) && forall k: nat :: 1 <= k < p.Groups() ==>
      OtherGroup(bytes, p, k)
    requires restBlocks == FreeBlocks(bytes, 1, p.Groups()) && restInodes == FreeInodes(bytes, 1, p.Groups())
    requires SuperOf(bytes).freeBlocks == DescOf(bytes, 0).freeBlocks + restBlocks
    requires SuperOf(bytes).freeInodes == DescOf(bytes, 0).freeInodes + restInodes
    ensures Conserved(bytes, p)
  {
    SumsSplit(bytes, p.Groups());
    FirstCounts(bytes, p);
    AllCount(bytes, p);
  }

  lemma FirstCounts(bytes: seq<Byte>, p: Plan)
    requires p.Groups() >= 1 && GroupOk(bytes, p.First())
    ensures GroupCounts(bytes, p, 0)
  {
    GroupMeans(bytes, p.First());
  }

  lemma AllCount(bytes: seq<Byte>, p: Plan)
    requires GroupCounts(bytes, p, 0) && forall k: nat :: 1 <= k < p.Groups() ==> OtherGroup(bytes, p, k)
    ensures forall k: nat :: k < p.Groups() ==> GroupCounts(bytes, p, k)
  {
    forall k: nat | k < p.Groups()
      ensures GroupCounts(bytes, p, k)
    {
      assert k >= 1 ==> OtherGroup(bytes, p, k);
    }
  }

  // ----- a bitmap whose first bits are set

  lemma SmallPowers()
    ensures Pow2(0) == 1 && Pow2(1) == 2 && Pow2(2) == 4 && Pow2(3) == 8 && Pow2(4) == 16
    ensures Pow2(5) == 32 && Pow2(6) == 64 && Pow2(7) == 128 && Pow2(8) == 256
  {
    assert Pow2(2) == 4;
    assert Pow2(4) == 16;
    assert Pow2(6) == 64;
  }

  /** A byte with its highest `n` bits set: ones shifted up and cut off at 8 bits. */
  function HighBits(n: nat): (x: Byte)
    requires n < BITS
  {
    (255 * Pow2(BITS - n) % 256) as Byte
  }

  /** A difference of powers of two has the bits between them. */
  lemma {:induction false} BitsBetween(x: nat, lo: nat, hi: nat, k: nat)
    requires lo <= hi && x == Pow2(hi) - Pow2(lo) && k < hi
    ensures LowBit(x, k) <==> lo <= k
    decreases hi
  {
    if hi > 0 {
      if lo == 0 {
        AllOnes(x, hi);
        AllSetBit(x, hi, k);
      } else {
        assert x == 2 * (Pow2(hi - 1) - Pow2(lo - 1));
        Pow2Monotone(lo - 1, hi - 1);
        if k > 0 {
          BitsBetween(x / 2, lo - 1, hi - 1, k - 1);
        }
      }
    }
  }

  lemma HighBitsAre(n: nat, b: nat)
    requires n < BITS && b < BITS
    ensures BitOf(HighBits(n), b) <==> b < n
  {
    SmallPowers();
    Pow2Monotone(BITS - n, BITS);
    assert HighBits(n) as nat == Pow2(BITS) - Pow2(BITS - n);
    BitsBetween(HighBits(n) as nat, BITS - n, BITS, BITS - 1 - b);
  }

  /** A bitmap block begun with `n` set bits, the way mkfs writes it. */
  function UsedBits(n: nat): (s: seq<Byte>)
    requires n < BITS * BLOCK_SIZE
    ensures |s| == BLOCK_SIZE
  {
    seq(n / BITS, _ => 0xFF as Byte) + [HighBits(n % BITS)] + Zeros(BLOCK_SIZE - n / BITS - 1)
  }

  lemma UsedBitsAre(n: nat, i: nat)
    requires n < BITS * BLOCK_SIZE && i < BITS * BLOCK_SIZE
    ensures Bit(UsedBits(n), i) <==> i < n
  {
    var x := UsedBits(n)[i / BITS];
    if i / BITS < n / BITS {
      FullByte(x);
    } else if i / BITS == n / BITS {
      HighBitsAre(n % BITS, i % BITS);
    } else {
      ZeroByte(x, i % BITS);
    }
  }

  lemma ZeroByte(x: Byte, b: nat)
    requires x == 0 && b < BITS
    ensures !BitOf(x, b)
  {
    HighBitsAre(0, b);
    SmallPowers();
    assert HighBits(0) == 0;
  }

  lemma {:induction false} ClearBehind(bitmap: seq<Byte>, used: nat, n: nat)
    requires forall i: nat :: i < n ==> (Bit(bitmap, i) <==> i < used)
    ensures Clear(bitmap, n) == if n < used then 0 else n - used
  {
    if n > 0 {
      ClearBehind(bitmap, used, n - 1);
    }
  }

  // ----- the inodes of all groups

  lemma Product(a: nat, b: nat, limitA: nat, limitB: nat)
    requires 0 < a <= limitA && 0 < b <= limitB
    ensures 0 < a * b <= limitA * limitB
  {
    assert a * b <= a * limitB;
    assert a * limitB <= limitA * limitB;
  }

  /** The word does not wrap: there are at most 512 groups of at most 8192 inodes. */
  lemma InodesFit(p: Plan)
    requires p.Ok()
    ensures 0 < p.InodesCount() == p.inodes * p.Groups()
  {
    assert 0 < p.Groups() <= 512;
    Product(p.inodes, p.Groups(), BLOCKS_PER_GROUP, 512);
  }

  // ----- more inodes than a bitmap has bits

  lemma {:induction false} ClearOfZeros(n: nat)
    ensures Clear(Zeros(BLOCK_SIZE), n) == Min(n, BITS * BLOCK_SIZE)
  {
    if n > 0 {
      ClearOfZeros(n - 1);
      if n - 1 < BITS * BLOCK_SIZE {
        ZeroBits(BITS - 1 - (n - 1) % BITS);
      }
    }
  }

  lemma {:induction false} ZeroBits(k: nat)
    ensures !LowBit(0, k)
  {
    if k > 0 {
      ZeroBits(k - 1);
    }
  }

  /**
   The count of a new group, a 16-bit word, is that of the clear bits of its inode bitmap exactly if the bitmap has
   a bit for each inode, or the count that is left of a larger number happens to be that of its bits.
   */
  lemma InodesCounted(inodes: nat)
    ensures inodes % 0x1_0000 == Clear(Zeros(BLOCK_SIZE), inodes) <==>
            inodes <= BITS * BLOCK_SIZE || inodes % 0x1_0000 == BITS * BLOCK_SIZE
  {
    ClearOfZeros(inodes);
  }

  /** One inode more than there are bits. */
  lemma OneInodeTooMany()
    ensures 8193 % 0x1_0000 != Clear(Zeros(BLOCK_SIZE), 8193)
  {
    InodesCounted(8193);
  }
}
