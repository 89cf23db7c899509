/** Making an empty image: block groups, super block and root directory. */
module FormatImage {
  import opened Units
  import opened Bytes
  import opened Bitmaps
  import opened DirectoryBlock
  import opened DirectoryFile
  import opened ImageFile
  import opened DiskFormat
  import opened Volume
  import opened BlockGrowth
  import opened GroupLayout
  import opened ImageWriter
  import opened VolumeFiles
  import opened SpaceLeft
  import opened RootDirectory
  import opened FileCopier

  /** The group has its descriptor, its used blocks marked, and no inode in use. */
  ghost predicate Made(bytes: seq<Byte>, p: Plan, k: nat) {
    && DescOf(bytes, k) == p.Desc(k)
    && (p.Used(k) < BITS * BLOCK_SIZE ==> BlockAt(bytes, p.Bitmap(k)) == UsedBits(p.Used(k)))
    && BlockAt(bytes, p.Bitmap(k) + 1) == Zeros(BLOCK_SIZE)
  }

  /** The group is large enough for its own metadata; otherwise mkfs gives up. */
  predicate Roomy(p: Plan, k: nat) {
    p.Used(k) < p.Size(k)
  }

  lemma ZerosJoin(m: nat, n: nat)
    ensures Zeros(m) + Zeros(n) == Zeros(m + n)
  {
  }

  /** make_blocks. */
  method MakeBlocks(img: Image, count: nat)
    requires count > 0
    modifies img`bytes, img`pos
    ensures img.bytes == old(img.bytes) + Zeros(count * BLOCK_SIZE)
  {
    img.WriteZeroBehind(count * BLOCK_SIZE - 1);
  }

  /** The blocks of a group, one part after the other, all zeros. */
  method MakeGroupBlocks(img: Image, p: Plan, k: nat)
    requires Roomy(p, k) && p.Ok()
    modifies img`bytes, img`pos
    ensures img.bytes == old(img.bytes) + Zeros(p.Size(k) * BLOCK_SIZE)
  {
    ghost var bytes := img.bytes;
    PartsExist(p);
    if k == 0 {
      MakeBlocks(img, 1);
      MakeBlocks(img, p.TableBlocks());
      Joined(bytes, BLOCK_SIZE, p.TableBlocks() * BLOCK_SIZE);
    }
    ghost var made := if k == 0 then (1 + p.TableBlocks()) * BLOCK_SIZE else 0;
    assert img.bytes == bytes + Zeros(made);
    MakeBlocks(img, 1);
    Joined(bytes, made, BLOCK_SIZE);
    MakeBlocks(img, 1);
    Joined(bytes, made + BLOCK_SIZE, BLOCK_SIZE);
    MakeBlocks(img, p.InodeBlocks());
    Joined(bytes, made + 2 * BLOCK_SIZE, p.InodeBlocks() * BLOCK_SIZE);
    MakeBlocks(img, p.Size(k) - p.Used(k));
    Joined(bytes, made + (2 + p.InodeBlocks()) * BLOCK_SIZE, (p.Size(k) - p.Used(k)) * BLOCK_SIZE);
  }

  lemma Joined(bytes: seq<Byte>, m: nat, n: nat)
    ensures bytes + Zeros(m) + Zeros(n) == bytes + Zeros(m + n)
  {
    ZerosJoin(m, n);
    assert bytes + Zeros(m) + Zeros(n) == bytes + (Zeros(m) + Zeros(n));
  }

  lemma PartsExist(p: Plan)
    requires p.Ok()
    ensures p.TableBlocks() >= 1 && p.InodeBlocks() >= 1 && p.Groups() >= 1
  {
  }

  /** Where a group's metadata is: behind the descriptors, in the group, in the image. */
  lemma MetadataInside(p: Plan, k: nat, size: nat)
    requires p.Ok() && k < p.Groups() && Roomy(p, 0) && Roomy(p, k) && size == (p.Start(k) + p.Size(k)) * BLOCK_SIZE
    ensures p.Used(k) < BITS * BLOCK_SIZE && p.Desc(k).Fits()
    ensures DescOffset(k) + DESC_SIZE <= DescOffset(p.Groups()) <= p.Bitmap(0) * BLOCK_SIZE <= p.Bitmap(k) * BLOCK_SIZE
    ensures p.Start(k) <= p.Bitmap(k) && (p.Bitmap(k) + 2) * BLOCK_SIZE <= size
    ensures k >= 1 ==> (p.Bitmap(0) + 2) * BLOCK_SIZE <= p.Start(k) * BLOCK_SIZE
  {
    PartsExist(p);
    TableHolds(p, k);
  }

  /** make_block_group_metadata: the descriptor, and a set bit for each used block. */
  method MakeMetadata(img: Image, p: Plan, k: nat)
    requires p.Ok() && k < p.Groups() && Roomy(p, 0) && Roomy(p, k)
    requires |img.bytes| == (p.Start(k) + p.Size(k)) * BLOCK_SIZE
    requires Slice(img.bytes, p.Bitmap(k) * BLOCK_SIZE, 2 * BLOCK_SIZE) == Zeros(2 * BLOCK_SIZE)
    modifies img`bytes, img`pos
    ensures Made(img.bytes, p, k) && |img.bytes| == |old(img.bytes)|
    ensures Same(old(img.bytes), img.bytes, 0, DescOffset(k)) &&
            Same(old(img.bytes), img.bytes, DescOffset(k) + DESC_SIZE, p.Bitmap(k) * BLOCK_SIZE)
  {
    ghost var a := img.bytes;
    MetadataInside(p, k, |a|);
    img.Seek(DescOffset(k));
    img.Write(EncodeDesc(p.Desc(k)));
    Overwritten(a, DescOffset(k), EncodeDesc(p.Desc(k)));
    DescRoundTrip(p.Desc(k));
    ghost var b := img.bytes;
    WriteBits(img, p.Bitmap(k), p.Used(k));
    MetadataMade(a, b, img.bytes, p, k);
  }

  lemma MetadataMade(a: seq<Byte>, b: seq<Byte>, c: seq<Byte>, p: Plan, k: nat)
    requires p.Ok() && k < p.Groups() && Roomy(p, 0) && Roomy(p, k) && |a| == (p.Start(k) + p.Size(k)) * BLOCK_SIZE
    requires Slice(a, p.Bitmap(k) * BLOCK_SIZE, 2 * BLOCK_SIZE) == Zeros(2 * BLOCK_SIZE)
    requires OnlyRange(a, b, DescOffset(k), DESC_SIZE) && DescOf(b, k) == p.Desc(k) && p.Used(k) < BITS * BLOCK_SIZE
    requires c == Overwrite(b, p.Bitmap(k) * BLOCK_SIZE, UsedBits(p.Used(k))[..p.Used(k) / BITS + 1])
    ensures Made(c, p, k)
    ensures Same(a, c, 0, DescOffset(k)) && Same(a, c, DescOffset(k) + DESC_SIZE, p.Bitmap(k) * BLOCK_SIZE)
  {
    MetadataInside(p, k, |a|);
    var at := p.Bitmap(k) * BLOCK_SIZE;
    var n := p.Used(k) / BITS + 1;
    Overwritten(b, at, UsedBits(p.Used(k))[..n]);
    SliceKept(b, c, at, n, DescOffset(k), DESC_SIZE);
    assert DescOf(c, k) == DescOf(b, k);
    SliceKept(a, b, DescOffset(k), DESC_SIZE, at, 2 * BLOCK_SIZE);
    BitmapsMade(b, c, p.Bitmap(k), p.Used(k));
    MetadataRanges(a, b, c, p, k, n);
  }

  /** The used bits written over the first of two zero blocks. */
  lemma BitmapsMade(b: seq<Byte>, c: seq<Byte>, bitmap: nat, used: nat)
    requires (bitmap + 2) * BLOCK_SIZE <= |b| && used < BITS * BLOCK_SIZE
    requires Slice(b, bitmap * BLOCK_SIZE, 2 * BLOCK_SIZE) == Zeros(2 * BLOCK_SIZE)
    requires c == Overwrite(b, bitmap * BLOCK_SIZE, UsedBits(used)[..used / BITS + 1])
    ensures BlockAt(c, bitmap) == UsedBits(used) && BlockAt(c, bitmap + 1) == Zeros(BLOCK_SIZE)
  {
    ZeroHalves(b, bitmap * BLOCK_SIZE);
    BitsWritten(b, bitmap, used);
    Overwritten(b, bitmap * BLOCK_SIZE, UsedBits(used)[..used / BITS + 1]);
    BlockKept(b, c, bitmap * BLOCK_SIZE, used / BITS + 1, bitmap + 1);
  }

  lemma MetadataRanges(a: seq<Byte>, b: seq<Byte>, c: seq<Byte>, p: Plan, k: nat, n: nat)
    requires OnlyRange(a, b, DescOffset(k), DESC_SIZE) && OnlyRange(b, c, p.Bitmap(k) * BLOCK_SIZE, n)
    requires DescOffset(k) + DESC_SIZE <= p.Bitmap(k) * BLOCK_SIZE
    ensures Same(a, c, 0, DescOffset(k)) && Same(a, c, DescOffset(k) + DESC_SIZE, p.Bitmap(k) * BLOCK_SIZE)
  {
  }

  /** On a block of zeros, the bytes that are written make the whole bitmap. */
  lemma BitsWritten(b: seq<Byte>, bitmap: nat, used: nat)
    requires HasBlock(b, bitmap) && BlockAt(b, bitmap) == Zeros(BLOCK_SIZE) && used < BITS * BLOCK_SIZE
    ensures BlockAt(Overwrite(b, bitmap * BLOCK_SIZE, UsedBits(used)[..used / BITS + 1]), bitmap) == UsedBits(used)
  {
    var bits := UsedBits(used);
    OverwrittenBlock(b, bitmap, 0, bits[..used / BITS + 1]);
    assert Overwrite(Zeros(BLOCK_SIZE), 0, bits[..used / BITS + 1]) == bits;
  }

  lemma ZeroHalves(b: seq<Byte>, at: nat)
    requires at + 2 * BLOCK_SIZE <= |b| && Slice(b, at, 2 * BLOCK_SIZE) == Zeros(2 * BLOCK_SIZE)
    ensures Slice(b, at, BLOCK_SIZE) == Zeros(BLOCK_SIZE) && Slice(b, at + BLOCK_SIZE, BLOCK_SIZE) == Zeros(BLOCK_SIZE)
  {
    SliceOfSlice(b, at, 2 * BLOCK_SIZE, 0, BLOCK_SIZE);
    SliceOfSlice(b, at, 2 * BLOCK_SIZE, BLOCK_SIZE, BLOCK_SIZE);
  }

  /** Full bytes, then one that is partly full. */
  method WriteBits(img: Image, bitmap: nat, used: nat)
    requires used < BITS * BLOCK_SIZE && HasBlock(img.bytes, bitmap)
    modifies img`bytes, img`pos
    ensures img.bytes == Overwrite(old(img.bytes), bitmap * BLOCK_SIZE, UsedBits(used)[..used / BITS + 1])
  {
    ghost var b := img.bytes;
    ghost var bits := UsedBits(used);
    img.Seek(bitmap * BLOCK_SIZE);
    var i := 0;
    assert img.bytes == Overwrite(b, bitmap * BLOCK_SIZE, bits[..0]);
    while i < used / BITS
      invariant 0 <= i <= used / BITS && img.pos == bitmap * BLOCK_SIZE + i
      invariant img.bytes == Overwrite(b, bitmap * BLOCK_SIZE, bits[..i])
    {
      img.Write([0xFF]);
      OneMoreByte(b, bitmap * BLOCK_SIZE, bits, i);
      i := i + 1;
    }
    img.Write([HighBits(used % BITS)]);
    OneMoreByte(b, bitmap * BLOCK_SIZE, bits, i);
  }

  lemma OneMoreByte(b: seq<Byte>, at: nat, bits: seq<Byte>, i: nat)
    requires i < |bits| && at + |bits| <= |b|
    ensures Overwrite(Overwrite(b, at, bits[..i]), at + i, [bits[i]]) == Overwrite(b, at, bits[..i + 1])
  {
  }

  // ----- all groups

  /** The image up to and including group `k - 1`, with those groups made. */
  ghost predicate MadeUpTo(bytes: seq<Byte>, p: Plan, k: nat) {
    && |bytes| == Min(p.Start(k), p.blocks + 1) * BLOCK_SIZE
    && forall j: nat :: j < k ==> Roomy(p, j) && Made(bytes, p, j)
  }

  lemma PrefixSlice(a: seq<Byte>, more: seq<Byte>, at: nat, n: nat)
    requires at + n <= |a|
    ensures Slice(a + more, at, n) == Slice(a, at, n)
  {
    var s, t := Slice(a + more, at, n), Slice(a, at, n);
    forall i: nat | i < n
      ensures s[i] == t[i]
    {
    }
  }

  /** Making group `k` leaves group `j` made. */
  lemma MadeKept(a: seq<Byte>, b: seq<Byte>, c: seq<Byte>, p: Plan, j: nat, k: nat)
    requires p.Ok() && j < k < p.Groups() && Roomy(p, 0) && Roomy(p, j) && Made(a, p, j)
    requires |a| == p.Start(k) * BLOCK_SIZE && b == a + Zeros(p.Size(k) * BLOCK_SIZE)
    requires Same(b, c, 0, DescOffset(k)) && Same(b, c, DescOffset(k) + DESC_SIZE, p.Bitmap(k) * BLOCK_SIZE)
    ensures Made(c, p, j)
  {
    var zeros := Zeros(p.Size(k) * BLOCK_SIZE);
    MetadataInside(p, j, (p.Start(j) + p.Size(j)) * BLOCK_SIZE);
    TableHolds(p, k);
    EarlierEnds(p, j, k);
    PrefixSlice(a, zeros, DescOffset(j), DESC_SIZE);
    PrefixSlice(a, zeros, p.Bitmap(j) * BLOCK_SIZE, BLOCK_SIZE);
    PrefixSlice(a, zeros, (p.Bitmap(j) + 1) * BLOCK_SIZE, BLOCK_SIZE);
    SameSlice(b, c, 0, DescOffset(k), DescOffset(j), DESC_SIZE);
    SameSlice(b, c, DescOffset(k) + DESC_SIZE, p.Bitmap(k) * BLOCK_SIZE, p.Bitmap(j) * BLOCK_SIZE, BLOCK_SIZE);
    SameSlice(b, c, DescOffset(k) + DESC_SIZE, p.Bitmap(k) * BLOCK_SIZE, (p.Bitmap(j) + 1) * BLOCK_SIZE, BLOCK_SIZE);
  }

  lemma EarlierEnds(p: Plan, j: nat, k: nat)
    requires j < k
    ensures p.Start(j) + p.Size(j) <= p.Start(k) == p.Bitmap(k) && DescOffset(j) + DESC_SIZE <= DescOffset(k)
  {
  }

  /** One group. */
  method MakeGroup(img: Image, p: Plan, k: nat)
    requires p.Ok() && k < p.Groups() && MadeUpTo(img.bytes, p, k) && Roomy(p, k)
    modifies img`bytes, img`pos
    ensures MadeUpTo(img.bytes, p, k + 1)
  {
    ghost var a := img.bytes;
    GroupEnds(p, k);
    MakeGroupBlocks(img, p, k);
    ghost var b := img.bytes;
    MetadataInside(p, k, |b|);
    NewZeros(a, p, k);
    MakeMetadata(img, p, k);
    forall j: nat | j < k
      ensures Made(img.bytes, p, j)
    {
      MadeKept(a, b, img.bytes, p, j, k);
    }
  }

  lemma GroupEnds(p: Plan, k: nat)
    requires p.Ok() && k < p.Groups()
    ensures Min(p.Start(k), p.blocks + 1) == p.Start(k) && p.Start(k) + p.Size(k) == Min(p.Start(k + 1), p.blocks + 1)
    ensures k + 1 == p.Groups() ==> Min(p.Start(k + 1), p.blocks + 1) == p.blocks + 1
  {
  }

  lemma NewZeros(a: seq<Byte>, p: Plan, k: nat)
    requires |a| == p.Start(k) * BLOCK_SIZE && p.Start(k) <= p.Bitmap(k) && p.Bitmap(k) + 2 <= p.Start(k) + p.Size(k)
    ensures Slice(a + Zeros(p.Size(k) * BLOCK_SIZE), p.Bitmap(k) * BLOCK_SIZE, 2 * BLOCK_SIZE) == Zeros(2 * BLOCK_SIZE)
  {
    var s := Slice(a + Zeros(p.Size(k) * BLOCK_SIZE), p.Bitmap(k) * BLOCK_SIZE, 2 * BLOCK_SIZE);
    var t := Zeros(2 * BLOCK_SIZE);
    forall i: nat | i < 2 * BLOCK_SIZE
      ensures s[i] == t[i]
    {
    }
  }

  lemma SumsUpTo(bytes: seq<Byte>, p: Plan, k: nat)
    requires MadeUpTo(bytes, p, k + 1)
    ensures FreeBlocks(bytes, 0, k + 1) == FreeBlocks(bytes, 0, k) + p.Desc(k).freeBlocks
    ensures FreeInodes(bytes, 0, k + 1) == FreeInodes(bytes, 0, k) + p.inodes
    ensures p.Desc(k).freeBlocks <= BLOCKS_PER_GROUP
  {
    assert Made(bytes, p, k);
  }

  /** The loop of mkfs over the groups: false if one is too small. The super block's counts add up as it goes. */
  method MakeGroups(img: Image, p: Plan) returns (ok: bool, super: SuperBlock)
    requires p.Ok() && |img.bytes| == BLOCK_SIZE
    modifies img`bytes, img`pos
    ensures ok <==> forall k: nat :: k < p.Groups() ==> Roomy(p, k)
    ensures ok ==> MadeUpTo(img.bytes, p, p.Groups())
    ensures ok ==>
      && super.inodesCount == p.InodesCount()
      && super.blocksCount == p.blocks && super.inodesPerGroup == p.inodes && super.Fits()
      && super.freeBlocks == FreeBlocks(img.bytes, 0, p.Groups()) &&
         super.freeInodes == FreeInodes(img.bytes, 0, p.Groups())
  {
    super := SuperBlock(p.InodesCount(), p.blocks, 0, 0, p.inodes);
    ok := true;
    var k, left := 0, p.blocks;
    while k < p.Groups() && ok
      invariant 0 <= k <= p.Groups() && left == p.blocks - Min(k * BLOCKS_PER_GROUP, p.blocks)
      invariant if ok then MadeUpTo(img.bytes, p, k) else k < p.Groups() && !Roomy(p, k)
      invariant super.blocksCount == p.blocks && super.inodesPerGroup == p.inodes
      invariant super.inodesCount == p.InodesCount()
      invariant ok ==>
        super.freeBlocks == FreeBlocks(img.bytes, 0, k) && super.freeInodes == FreeInodes(img.bytes, 0, k)
      invariant super.freeBlocks <= k * BLOCKS_PER_GROUP && super.freeInodes <= k * BLOCKS_PER_GROUP
      decreases p.Groups() - k, ok
    {
      var blocks := if left > BLOCKS_PER_GROUP then BLOCKS_PER_GROUP else left;
      ok := blocks > p.Used(k);
      if ok {
        ghost var a := img.bytes;
        MakeGroup(img, p, k);
        AddedUp(a, img.bytes, p, k);
        super := super.(freeInodes := super.freeInodes + p.Desc(k).freeInodes,
                        freeBlocks := super.freeBlocks + p.Desc(k).freeBlocks);
        left := left - blocks;
        k := k + 1;
      }
    }
    FewGroups(p);
  }

  lemma AddedUp(a: seq<Byte>, b: seq<Byte>, p: Plan, k: nat)
    requires MadeUpTo(a, p, k) && MadeUpTo(b, p, k + 1)
    ensures FreeBlocks(b, 0, k + 1) == FreeBlocks(a, 0, k) + p.Desc(k).freeBlocks &&
            p.Desc(k).freeBlocks <= BLOCKS_PER_GROUP
    ensures FreeInodes(b, 0, k + 1) == FreeInodes(a, 0, k) + p.Desc(k).freeInodes
  {
    SumsUpTo(b, p, k);
    SumsAgree(a, b, p, k);
  }

  lemma {:induction false} SumsAgree(a: seq<Byte>, b: seq<Byte>, p: Plan, k: nat)
    requires forall j: nat :: j < k ==> Made(a, p, j) && Made(b, p, j)
    ensures FreeBlocks(b, 0, k) == FreeBlocks(a, 0, k) && FreeInodes(b, 0, k) == FreeInodes(a, 0, k)
    decreases k
  {
    if k > 0 {
      SumsAgree(a, b, p, k - 1);
      assert Made(a, p, k - 1) && Made(b, p, k - 1);
    }
  }

  lemma FewGroups(p: Plan)
    requires p.Ok()
    ensures p.Groups() * BLOCKS_PER_GROUP < WORD
  {
  }

  // ----- the made groups are accounted for

  ghost predicate FirstBits(bitmap: seq<Byte>, n: nat) {
    forall i: nat :: i < n ==> Bit(bitmap, i)
  }

  ghost predicate NoBits(bitmap: seq<Byte>, n: nat) {
    forall i: nat :: i < n ==> !Bit(bitmap, i)
  }

  lemma MadeCounts(bytes: seq<Byte>, p: Plan, k: nat)
    requires p.Ok() && k < p.Groups() && Roomy(p, 0) && Roomy(p, k) && Made(bytes, p, k)
    ensures GroupCounts(bytes, p, k)
    ensures FirstBits(BlockAt(bytes, p.Bitmap(k)), p.Used(k)) && NoBits(BlockAt(bytes, p.Bitmap(k) + 1), p.inodes)
  {
    var blockBits, inodeBits := BlockAt(bytes, p.Bitmap(k)), BlockAt(bytes, p.Bitmap(k) + 1);
    MetadataInside(p, k, (p.Start(k) + p.Size(k)) * BLOCK_SIZE);
    forall i: nat | i < BITS * BLOCK_SIZE
      ensures Bit(blockBits, i) <==> i < p.Used(k)
    {
      UsedBitsAre(p.Used(k), i);
    }
    forall i: nat | i < BITS * BLOCK_SIZE
      ensures !Bit(inodeBits, i)
    {
      ZeroByte(Zeros(BLOCK_SIZE)[i / BITS], i % BITS);
    }
    ClearBehind(blockBits, p.Used(k), p.Size(k));
    ClearBehind(inodeBits, 0, p.inodes);
  }

  lemma FirstGroupOk(bytes: seq<Byte>, p: Plan)
    requires p.Ok() && MadeUpTo(bytes, p, p.Groups())
    ensures GroupOk(bytes, p.First()) && !InodeUsed(bytes, p.First(), ROOT_INO)
  {
    var g := p.First();
    PartsExist(p);
    assert Roomy(p, 0) && Made(bytes, p, 0);
    MadeCounts(bytes, p, 0);
    MetadataInside(p, 0, (p.Start(0) + p.Size(0)) * BLOCK_SIZE);
    GroupEnds(p, p.Groups() - 1);
    FirstGeometry(p, |bytes|);
    MetadataTaken(bytes, g, p.Used(0));
    assert Counted(bytes, g);
    RootUntaken(bytes, g);
  }

  lemma MetadataTaken(bytes: seq<Byte>, g: Geometry, used: nat)
    requires FirstBits(BlockBits(bytes, g), used) && g.DataStart() == used + 1 && used < BITS * BLOCK_SIZE
    ensures forall b: nat :: 1 <= b < g.DataStart() ==> BlockUsed(bytes, g, b)
  {
  }

  lemma RootUntaken(bytes: seq<Byte>, g: Geometry)
    requires NoBits(InodeBits(bytes, g), g.inodesPerGroup) && g.IsInode(ROOT_INO)
    ensures !InodeUsed(bytes, g, ROOT_INO)
  {
  }

  lemma FirstGeometry(p: Plan, size: nat)
    requires p.Ok() && Roomy(p, 0) && size == (p.blocks + 1) * BLOCK_SIZE
    ensures p.First().Ok(size) && p.First().DataStart() == p.Used(0) + 1 && p.First().GroupBlocks() == p.Size(0)
  {
    PartsExist(p);
    TableHolds(p, 0);
    InodesFit(p);
  }

  lemma OtherGroupOk(bytes: seq<Byte>, p: Plan, k: nat)
    requires p.Ok() && MadeUpTo(bytes, p, p.Groups()) && 1 <= k < p.Groups()
    ensures OtherGroup(bytes, p, k)
  {
    assert Roomy(p, 0) && Roomy(p, k) && Made(bytes, p, k);
    MadeCounts(bytes, p, k);
    GroupEnds(p, p.Groups() - 1);
    EarlierOrLast(p, k);
  }

  lemma EarlierOrLast(p: Plan, k: nat)
    requires p.Ok() && k < p.Groups() && Roomy(p, k)
    ensures p.Start(k) + 2 <= p.blocks + 1
  {
  }

  // ----- the root directory

  const DOT_RECORD := Record(ROOT_INO, FT_DIR, DOT)
  const DOT_DOT_RECORD := Record(ROOT_INO, FT_DIR, DOT_DOT)

  /** The room behind the two dots. */
  function DotsRoom(): nat {
    RoomAfter(2, RoomAfter(1, BLOCK_SIZE))
  }

  /** The two entries of a new directory block. */
  method PutDots(m: Mkfs, block: nat)
    requires m.Synced() && m.g.IsData(block) && PaddingAt(BlockAt(m.img.bytes, block), 0)
    modifies m.img`bytes, m.img`pos
    ensures m.Synced() && OnlyRange(old(m.img.bytes), m.img.bytes, block * BLOCK_SIZE, BLOCK_SIZE)
    ensures Tiled(BlockAt(m.img.bytes, block), 0)
    ensures Records(BlockAt(m.img.bytes, block), 0) == [DOT_RECORD, DOT_DOT_RECORD]
    ensures BlockBits(m.img.bytes, m.g) == old(BlockBits(m.img.bytes, m.g))
    ensures InodeBits(m.img.bytes, m.g) == old(InodeBits(m.img.bytes, m.g))
    ensures DescOf(m.img.bytes, 0) == old(DescOf(m.img.bytes, 0))
    ensures Room(BlockAt(m.img.bytes, block)) == DotsRoom()
  {
    ghost var a := m.img.bytes;
    DataIsNumbered(a, m.g, block);
    NoRecord(BlockAt(a, block), 0);
    assert Room(BlockAt(a, block)) == BLOCK_SIZE;
    var ok := WriteEntryToBlock(m.img, block, DOT_RECORD);
    ghost var b := m.img.bytes;
    ok := WriteEntryToBlock(m.img, block, DOT_DOT_RECORD);
    RangeTwice(a, b, m.img.bytes, block * BLOCK_SIZE, BLOCK_SIZE);
    WriteKeepsCounts(a, m.img.bytes, m.g, block, BLOCK_SIZE);
    assert Records(BlockAt(a, block), 0) + [DOT_RECORD] + [DOT_DOT_RECORD] == [DOT_RECORD, DOT_DOT_RECORD];
  }

  lemma RangeTwice(a: seq<Byte>, b: seq<Byte>, c: seq<Byte>, at: nat, n: nat)
    requires OnlyRange(a, b, at, n) && OnlyRange(b, c, at, n)
    ensures OnlyRange(a, c, at, n)
  {
  }

  /** write_root_dir. */
  method WriteRootDir(m: Mkfs) returns (ok: bool, block: nat)
    requires m.Synced() && m.g.IsInode(ROOT_INO) && !InodeUsed(m.img.bytes, m.g, ROOT_INO)
    modifies m`super, m.img`bytes, m.img`pos
    ensures ok <==> old(DescOf(m.img.bytes, 0)).freeBlocks > 0
    ensures ok ==>
      && m.Synced() && SuperOf(m.img.bytes) == m.super && OthersKept(old(m.img.bytes), m.img.bytes, m.g)
      && VolumeOk(m.img.bytes, m.g, [block], map[])
    ensures ok ==>
      var d := old(DescOf(m.img.bytes, 0));
      && d.freeBlocks > 0 && d.freeInodes > 0
      && SpaceOf(m.img.bytes, [block]) == Space(d.freeBlocks - 1, d.freeInodes - 1, [DotsRoom()])
  {
    ghost var a := m.img.bytes;
    ok, block := m.AllocBlock();
    if ok {
      InitDirBlock(m, block);
      ghost var b := m.img.bytes;
      PutDots(m, block);
      ghost var c := m.img.bytes;
      RangeTwice(a, b, c, block * BLOCK_SIZE, BLOCK_SIZE);
      DataIsNumbered(a, m.g, block);
      StoreRoot(m, block, a);
    }
  }

  /** The inode of the root directory, the counts, and the super block. */
  method StoreRoot(m: Mkfs, block: nat, ghost a: seq<Byte>)
    requires m.Synced() && GroupOk(a, m.g) && m.g.IsData(block) && !BlockUsed(a, m.g, block)
    requires OnlyRange(a, m.img.bytes, block * BLOCK_SIZE, BLOCK_SIZE) &&
             BlockBits(m.img.bytes, m.g) == BlockBits(a, m.g)
    requires m.g.IsInode(ROOT_INO) && !InodeUsed(m.img.bytes, m.g, ROOT_INO) && Tiled(BlockAt(m.img.bytes, block), 0)
    requires Records(BlockAt(m.img.bytes, block), 0) == [DOT_RECORD, DOT_DOT_RECORD]
    modifies m`super, m.img`bytes, m.img`pos
    ensures m.Synced() && SuperOf(m.img.bytes) == m.super && OthersKept(a, m.img.bytes, m.g)
    ensures VolumeOk(m.img.bytes, m.g, [block], map[])
    ensures Rooms(m.img.bytes, [block]) == [old(Room(BlockAt(m.img.bytes, block)))]
    ensures DescOf(m.img.bytes, 0).freeBlocks + 1 == old(DescOf(m.img.bytes, 0)).freeBlocks
    ensures DescOf(m.img.bytes, 0).freeInodes + 1 == old(DescOf(m.img.bytes, 0)).freeInodes
  {
    ghost var c := m.img.bytes;
    m.WriteInode(ROOT_INO, RootInode([block]));
    ghost var d := m.img.bytes;
    m.super := m.super.(freeInodes := m.super.freeInodes - 1);
    CountBlock(m, block);
    RootMade(a, c, d, m.img.bytes, m.g, block);
    RootRoom(c, d, m.img.bytes, m.g, block);
  }

  lemma RootRoom(c: seq<Byte>, d: seq<Byte>, e: seq<Byte>, g: Geometry, block: nat)
    requires GroupOk(c, g) && GroupOk(d, g) && g.IsData(block) && InodeStored(c, d, g, ROOT_INO) && g.IsInode(ROOT_INO)
    requires BlockBits(d, g) == BlockBits(c, g) && BitSet(InodeBits(c, g), InodeBits(d, g), BitNo(ROOT_INO))
    requires Touches(d, e, g, {}, {})
    ensures Rooms(e, [block]) == [Room(BlockAt(c, block))]
  {
    InodeTouches(c, d, g, ROOT_INO);
    TouchesMeans(c, d, g, {}, {ROOT_INO});
    TouchesMeans(d, e, g, {}, {});
  }

  /** A directory of the two dots only is a volume without files. */
  lemma DotsOnly(e: seq<Byte>, g: Geometry, block: nat)
    requires GroupOk(e, g) && DirOk(e, g, [block]) && DirRecords(e, [block]) == [DOT_RECORD, DOT_DOT_RECORD]
    ensures VolumeOk(e, g, [block], map[])
  {
    DotNames();
    assert VolumeOkBody(e, g, [block], map[]);
  }

  lemma RootMade(a: seq<Byte>, c: seq<Byte>, d: seq<Byte>, e: seq<Byte>, g: Geometry, block: nat)
    requires GroupOk(a, g) && g.IsData(block) && !BlockUsed(a, g, block) &&
             OnlyRange(a, c, block * BLOCK_SIZE, BLOCK_SIZE)
    requires Tiled(BlockAt(c, block), 0) && Records(BlockAt(c, block), 0) == [DOT_RECORD, DOT_DOT_RECORD]
    requires g.IsInode(ROOT_INO) && GroupOk(d, g) && InodeStored(c, d, g, ROOT_INO) &&
             BlockBits(d, g) == BlockBits(c, g)
    requires BitSet(InodeBits(c, g), InodeBits(d, g), BitNo(ROOT_INO)) && InodeNo(d, g, ROOT_INO) == RootInode([block])
    requires Touches(d, e, g, {}, {}) && BlockUsed(e, g, block)
    ensures VolumeOk(e, g, [block], map[]) && OthersKept(a, e, g)
  {
    BlockTouches(a, c, g, block);
    TouchesMeans(a, c, g, {block}, {});
    InodeTouches(c, d, g, ROOT_INO);
    TouchesThen(a, c, d, g, {block}, {}, {}, {ROOT_INO});
    TouchesThen(a, d, e, g, {block} + {}, {} + {ROOT_INO}, {}, {});
    OtherGroups(a, e, g, {block} + {} + {}, {} + {ROOT_INO} + {});
    TouchesMeans(c, d, g, {}, {ROOT_INO});
    TouchesMeans(d, e, g, {}, {});
    DataIsNumbered(a, g, block);
    assert InodeUsed(d, g, ROOT_INO) && BlockAt(e, block) == BlockAt(c, block);
    assert DirOkBody(e, g, [block]);
    DirOne(e, block);
    DotsOnly(e, g, block);
  }

  lemma DotNames()
    ensures NamesOk([DOT_RECORD, DOT_DOT_RECORD], map[])
  {
    var rs := [DOT_RECORD, DOT_DOT_RECORD];
    forall n
      ensures Names(rs, n) <==> n == DOT || n == DOT_DOT
    {
      assert rs[0].name == DOT && rs[1].name == DOT_DOT;
    }
    assert rs[1..][0] == DOT_DOT_RECORD;
  }

  // ----- mkfs

  /** Everything mkfs and the copying of files keep of an image. */
  ghost predicate Sound(m: Mkfs, p: Plan, dir: seq<nat>, files: Files)
    reads m`super, m.img`bytes
  {
    && m.Synced() && m.g == p.First() && SuperOf(m.img.bytes) == m.super
    && VolumeOk(m.img.bytes, m.g, dir, files)
    && m.restBlocks == FreeBlocks(m.img.bytes, 1, p.Groups()) && m.restInodes == FreeInodes(m.img.bytes, 1, p.Groups())
    && forall k: nat :: 1 <= k < p.Groups() ==> OtherGroup(m.img.bytes, p, k)
  }

  /** In a sound image the free counts agree in every group and with the super block. */
  lemma SoundConserves(m: Mkfs, p: Plan, dir: seq<nat>, files: Files)
    requires Sound(m, p, dir, files) && p.Ok()
    ensures Conserved(m.img.bytes, p)
  {
    PartsExist(p);
    AllConserved(m.img.bytes, p, m.restBlocks, m.restInodes);
  }

  /** And its super block says what the image was made with. */
  lemma SoundSuper(m: Mkfs, p: Plan, dir: seq<nat>, files: Files)
    requires Sound(m, p, dir, files) && p.Ok()
    ensures SuperOf(m.img.bytes).inodesCount == p.inodes * p.Groups() && SuperOf(m.img.bytes).blocksCount == p.blocks
    ensures SuperOf(m.img.bytes).inodesPerGroup == p.inodes
  {
    InodesFit(p);
  }

  lemma RestKept(before: seq<Byte>, after: seq<Byte>, p: Plan)
    requires OthersKept(before, after, p.First())
    requires forall k: nat :: 1 <= k < p.Groups() ==> OtherGroup(before, p, k)
    ensures forall k: nat :: 1 <= k < p.Groups() ==> OtherGroup(after, p, k)
    ensures FreeBlocks(after, 1, p.Groups()) == FreeBlocks(before, 1, p.Groups())
    ensures FreeInodes(after, 1, p.Groups()) == FreeInodes(before, 1, p.Groups())
  {
    forall k: nat | 1 <= k < p.Groups()
      ensures OtherGroup(after, p, k) && DescOf(after, k) == DescOf(before, k)
    {
      OthersSame(before, after, p, k);
    }
    SumsSame(before, after, p.Groups());
  }

  /** What a new image has left: a block and an inode went to the root directory. */
  function NewSpace(p: Plan): Space {
    var d := p.Desc(0);
    Space(if d.freeBlocks > 0 then d.freeBlocks - 1 else 0, if p.inodes > 0 then p.inodes - 1 else 0, [DotsRoom()])
  }

  /** The blocks free in the groups behind the first, below group `n`. */
  function RestBlocks(p: Plan, n: nat): nat {
    if n <= 1 then 0 else RestBlocks(p, n - 1) + p.Desc(n - 1).freeBlocks
  }

  /** mkfs: an image of a volume without files, unless a group is too small for its own metadata. */
  method MakeFs(p: Plan) returns (ok: bool, m: Mkfs?, ghost dir: seq<nat>)
    requires p.Ok()
    ensures ok <==> forall k: nat :: k < p.Groups() ==> Roomy(p, k)
    ensures ok ==>
      m != null && fresh(m) && fresh(m.img) && Sound(m, p, dir, map[]) && |m.img.bytes| == (p.blocks + 1) * BLOCK_SIZE
    ensures ok ==> SpaceOf(m.img.bytes, dir) == NewSpace(p) && m.restBlocks == RestBlocks(p, p.Groups())
    ensures ok ==>
      var super := SuperOf(m.img.bytes);
      && super.inodesCount == p.inodes * p.Groups() % WORD && super.blocksCount == p.blocks
      && super.inodesPerGroup == p.inodes && GroupsSearched(super.inodesCount, super.inodesPerGroup) == 1
  {
    dir, m := [], null;
    var img := new Image([]);
    MakeBlocks(img, 1);
    var super;
    ok, super := MakeGroups(img, p);
    if ok {
      ghost var a := img.bytes;
      GroupsMade(a, p);
      m := new Mkfs(img, super, p.First(), FreeBlocks(a, 1, p.Groups()), FreeInodes(a, 1, p.Groups()));
      m.UpdateSuper();
      SuperTouches(a, img.bytes, p.First());
      SomeFree(a, p);
      RestMade(a, p, p.Groups());
      OtherGroups(a, img.bytes, p.First(), {}, {});
      var block;
      ghost var b := img.bytes;
      ok, block := WriteRootDir(m);
      dir := [block];
      if ok {
        RestKept(a, b, p);
        RestKept(b, img.bytes, p);
        InodesFit(p);
        OneGroup(p.InodesCount(), p.inodes);
      }
    }
  }

  lemma SomeFree(bytes: seq<Byte>, p: Plan)
    requires p.Ok() && MadeUpTo(bytes, p, p.Groups())
    ensures DescOf(bytes, 0) == p.Desc(0) && DescOf(bytes, 0).freeBlocks > 0
  {
    PartsExist(p);
    assert Roomy(p, 0) && Made(bytes, p, 0);
  }

  lemma {:induction false} RestMade(bytes: seq<Byte>, p: Plan, n: nat)
    requires MadeUpTo(bytes, p, p.Groups()) && n <= p.Groups()
    ensures FreeBlocks(bytes, 1, n) == RestBlocks(p, n)
  {
    if n > 1 {
      RestMade(bytes, p, n - 1);
      assert Made(bytes, p, n - 1);
    }
  }

  lemma GroupsMade(bytes: seq<Byte>, p: Plan)
    requires p.Ok() && MadeUpTo(bytes, p, p.Groups())
    ensures GroupOk(bytes, p.First()) && !InodeUsed(bytes, p.First(), ROOT_INO) && p.First().IsInode(ROOT_INO)
    ensures forall k: nat :: 1 <= k < p.Groups() ==> OtherGroup(bytes, p, k)
    ensures FreeBlocks(bytes, 0, p.Groups()) == DescOf(bytes, 0).freeBlocks + FreeBlocks(bytes, 1, p.Groups())
    ensures FreeInodes(bytes, 0, p.Groups()) == DescOf(bytes, 0).freeInodes + FreeInodes(bytes, 1, p.Groups())
    ensures |bytes| == (p.blocks + 1) * BLOCK_SIZE
  {
    PartsExist(p);
    FirstGroupOk(bytes, p);
    forall k: nat | 1 <= k < p.Groups()
      ensures OtherGroup(bytes, p, k)
    {
      OtherGroupOk(bytes, p, k);
    }
    SumsSplit(bytes, p.Groups());
    GroupEnds(p, p.Groups() - 1);
  }

  /** Copying a file keeps an image sound, and adds the file or, if there seems to be no space, an empty one. */
  method CopyFile(m: Mkfs, name: seq<Byte>, data: seq<Byte>, ghost p: Plan, ghost dir: seq<nat>, ghost files: Files)
    returns (res: Result, ghost dir': seq<nat>, ghost files': Files)
    requires p.Ok() && Sound(m, p, dir, files) && LegalName(name) && |data| < WORD
    modifies m`super, m.img`bytes, m.img`pos
    ensures res != Result.Exits && res != Result.NoRoom ==>
      Sound(m, p, dir', files') && |m.img.bytes| == |old(m.img.bytes)|
    ensures var s := old(SpaceOf(m.img.bytes, dir));
            && (res == if name in files || name == DOT || name == DOT_DOT then NameTaken
                       else CopyOutcome(s, m.restBlocks, |name|, |data|))
            && (res == Written || res == Refused ==>
                  SpaceOf(m.img.bytes, dir') == AfterCopy(s, m.restBlocks, |name|, |data|))
    ensures res == NameTaken ==> files' == files && dir' == dir && m.img.bytes == old(m.img.bytes)
    ensures res == Written ==> files'.Keys == files.Keys + {name} && files'[name].data == data
    ensures res == Refused ==> files'.Keys == files.Keys + {name} && files'[name].data == []
    ensures forall n :: n in files && n != name ==> n in files' && files'[n] == files[n]
  {
    ghost var a := m.img.bytes;
    ghost var f;
    files' := files;
    res, dir', f := WriteFile(m, name, data, dir, files);
    if res == NameTaken {
      dir' := dir;
    } else if res == Written || res == Refused {
      files' := files[name := f];
      RestKept(a, m.img.bytes, p);
    }
  }
}
