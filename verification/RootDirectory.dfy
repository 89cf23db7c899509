/** The root directory: the blocks its inode points at, and the records in them. */
module RootDirectory {
  import opened Bytes
  import opened Bitmaps
  import opened DirectoryBlock
  import opened DirectoryFile
  import opened ImageFile
  import opened DiskFormat
  import opened Volume
  import opened FileTree
  import opened BlockGrowth
  import opened ImageWriter
  import opened VolumeFiles
  import opened SpaceLeft

  /** All records of the directory, block by block. */
  ghost function DirRecords(bytes: seq<Byte>, dir: seq<nat>): seq<Record>
    decreases |dir|
  {
    if dir == [] then [] else Records(BlockAt(bytes, dir[0]), 0) + DirRecords(bytes, dir[1..])
  }

  ghost predicate DirBlock(bytes: seq<Byte>, g: Geometry, block: nat) {
    g.IsData(block) && BlockUsed(bytes, g, block) && Tiled(BlockAt(bytes, block), 0)
  }

  ghost predicate DistinctBlocks(dir: seq<nat>) {
    forall i, j :: 0 <= i < j < |dir| ==> dir[i] != dir[j]
  }

  function RootInode(dir: seq<nat>): Inode
    requires |dir| <= INODE_BLOCKS
  {
    Inode(S_IFDIR, Zeros(22), BLOCK_SIZE, Padded(dir, INODE_BLOCKS))
  }

  /** Keeps `DirOk` closed: what it says is in view only where a key is stated. */
  ghost predicate DirKey(k: int) {
    true
  }

  /** The root inode lists these directory blocks, and each is well formed. */
  ghost predicate DirOkBody(bytes: seq<Byte>, g: Geometry, dir: seq<nat>) {
    && GroupOk(bytes, g) && InodeUsed(bytes, g, ROOT_INO) && g.IsInode(ROOT_INO)
    && 1 <= |dir| <= DIRECT_BLOCKS && DistinctBlocks(dir)
    && InodeNo(bytes, g, ROOT_INO) == RootInode(dir)
    && forall i :: 0 <= i < |dir| ==> DirBlock(bytes, g, dir[i])
  }

  ghost predicate DirOk(bytes: seq<Byte>, g: Geometry, dir: seq<nat>) {
    forall k {:trigger DirKey(k)} :: DirKey(k) ==> DirOkBody(bytes, g, dir)
  }

  lemma DirMeans(bytes: seq<Byte>, g: Geometry, dir: seq<nat>)
    requires DirOk(bytes, g, dir)
    ensures DirOkBody(bytes, g, dir)
  {
    assert DirKey(0);
  }

  ghost function AsSet(dir: seq<nat>): set<nat> {
    set b | b in dir
  }

  // ----- records of changed directories

  lemma {:induction false} RecordsSame(before: seq<Byte>, after: seq<Byte>, dir: seq<nat>)
    requires forall i :: 0 <= i < |dir| ==> BlockAt(after, dir[i]) == BlockAt(before, dir[i])
    ensures DirRecords(after, dir) == DirRecords(before, dir)
    decreases |dir|
  {
    if dir != [] {
      RecordsSame(before, after, dir[1..]);
    }
  }

  lemma {:induction false} DirJoin(bytes: seq<Byte>, xs: seq<nat>, ys: seq<nat>)
    ensures DirRecords(bytes, xs + ys) == DirRecords(bytes, xs) + DirRecords(bytes, ys)
    decreases |xs|
  {
    if xs == [] {
      assert xs + ys == ys;
    } else {
      assert (xs + ys)[1..] == xs[1..] + ys;
      DirJoin(bytes, xs[1..], ys);
    }
  }

  lemma DirOne(bytes: seq<Byte>, block: nat)
    ensures DirRecords(bytes, [block]) == Records(BlockAt(bytes, block), 0)
  {
    assert [block][1..] == [];
  }

  lemma DirSplit(bytes: seq<Byte>, dir: seq<nat>, i: nat)
    requires i < |dir|
    ensures DirRecords(bytes, dir)
            == DirRecords(bytes, dir[..i]) + Records(BlockAt(bytes, dir[i]), 0) + DirRecords(bytes, dir[i + 1..])
  {
    assert dir == dir[..i] + [dir[i]] + dir[i + 1..];
    DirJoin(bytes, dir[..i] + [dir[i]], dir[i + 1..]);
    DirJoin(bytes, dir[..i], [dir[i]]);
    DirOne(bytes, dir[i]);
  }

  /** `r` was inserted somewhere among the records. */
  ghost predicate InsertedInto(rs: seq<Record>, rs': seq<Record>, r: Record) {
    exists xs, ys :: InsertedBetween(xs, ys, rs, rs', r)
  }

  ghost predicate InsertedBetween(xs: seq<Record>, ys: seq<Record>, rs: seq<Record>, rs': seq<Record>, r: Record) {
    rs == xs + ys && rs' == xs + [r] + ys
  }

  lemma BlockInserted(before: seq<Byte>, after: seq<Byte>, dir: seq<nat>, i: nat, r: Record)
    requires i < |dir| && DistinctBlocks(dir)
    requires forall j :: 0 <= j < |dir| && j != i ==> BlockAt(after, dir[j]) == BlockAt(before, dir[j])
    requires Records(BlockAt(after, dir[i]), 0) == Records(BlockAt(before, dir[i]), 0) + [r]
    ensures InsertedInto(DirRecords(before, dir), DirRecords(after, dir), r)
  {
    DirSplit(before, dir, i);
    DirSplit(after, dir, i);
    RecordsSame(before, after, dir[..i]);
    RecordsSame(before, after, dir[i + 1..]);
    var xs := DirRecords(before, dir[..i]) + Records(BlockAt(before, dir[i]), 0);
    var ys := DirRecords(before, dir[i + 1..]);
    Regroup(DirRecords(before, dir[..i]), Records(BlockAt(before, dir[i]), 0), r, ys);
    assert InsertedBetween(xs, ys, DirRecords(before, dir), DirRecords(after, dir), r);
  }

  lemma Regroup(xs: seq<Record>, bs: seq<Record>, r: Record, cs: seq<Record>)
    ensures xs + (bs + [r]) + cs == (xs + bs) + [r] + cs
  {
  }

  // ----- what keeps a directory

  lemma DirBlocksAreData(bytes: seq<Byte>, g: Geometry, dir: seq<nat>)
    requires DirOk(bytes, g, dir)
    ensures forall b :: b in dir ==> g.IsData(b) && BlockUsed(bytes, g, b)
  {
    DirMeans(bytes, g, dir);
    forall b | b in dir
      ensures g.IsData(b) && BlockUsed(bytes, g, b)
    {
      var i :| 0 <= i < |dir| && dir[i] == b;
      assert DirBlock(bytes, g, dir[i]);
    }
  }

  lemma DirKept(before: seq<Byte>, after: seq<Byte>, g: Geometry, dir: seq<nat>, blocks: set<nat>, inos: set<nat>)
    requires DirOk(before, g, dir) && Touches(before, after, g, blocks, inos)
    requires AsSet(dir) !! blocks && ROOT_INO !in inos
    ensures DirOk(after, g, dir) && DirRecords(after, dir) == DirRecords(before, dir)
  {
    DirMeans(before, g, dir);
    TouchesMeans(before, after, g, blocks, inos);
    forall i | 0 <= i < |dir|
      ensures BlockAt(after, dir[i]) == BlockAt(before, dir[i]) && DirBlock(after, g, dir[i])
    {
      assert dir[i] in AsSet(dir) && DirBlock(before, g, dir[i]);
      DataIsNumbered(before, g, dir[i]);
    }
    RecordsSame(before, after, dir);
    assert DirOkBody(after, g, dir);
  }

  lemma RoomsKept(before: seq<Byte>, after: seq<Byte>, g: Geometry, dir: seq<nat>, blocks: set<nat>, inos: set<nat>)
    requires DirOk(before, g, dir) && Touches(before, after, g, blocks, inos) && AsSet(dir) !! blocks
    ensures Rooms(after, dir) == Rooms(before, dir)
  {
    DirMeans(before, g, dir);
    TouchesMeans(before, after, g, blocks, inos);
    forall i | 0 <= i < |dir|
      ensures BlockAt(after, dir[i]) == BlockAt(before, dir[i])
    {
      assert dir[i] in AsSet(dir) && DirBlock(before, g, dir[i]);
    }
    RoomsSame(before, after, dir);
  }

  lemma RoomSet(before: seq<Byte>, after: seq<Byte>, g: Geometry, dir: seq<nat>, i: nat)
    requires i < |dir| && DirOk(before, g, dir) && Touches(before, after, g, {dir[i]}, {})
    ensures Rooms(after, dir) == Rooms(before, dir)[i := Room(BlockAt(after, dir[i]))]
  {
    DirMeans(before, g, dir);
    TouchesMeans(before, after, g, {dir[i]}, {});
    forall j | 0 <= j < |dir| && j != i
      ensures BlockAt(after, dir[j]) == BlockAt(before, dir[j])
    {
      assert DirBlock(before, g, dir[j]);
    }
    RoomsChanged(before, after, dir, i);
  }

  /** One more record in one block of the directory. */
  lemma DirChanged(before: seq<Byte>, after: seq<Byte>, g: Geometry, dir: seq<nat>, i: nat, r: Record)
    requires DirOk(before, g, dir) && i < |dir| && Touches(before, after, g, {dir[i]}, {})
    requires Tiled(BlockAt(after, dir[i]), 0)
    requires Records(BlockAt(after, dir[i]), 0) == Records(BlockAt(before, dir[i]), 0) + [r]
    ensures DirOk(after, g, dir) && InsertedInto(DirRecords(before, dir), DirRecords(after, dir), r)
  {
    DirMeans(before, g, dir);
    TouchesMeans(before, after, g, {dir[i]}, {});
    forall j | 0 <= j < |dir|
      ensures DirBlock(after, g, dir[j]) && (j != i ==> BlockAt(after, dir[j]) == BlockAt(before, dir[j]))
    {
      assert DirBlock(before, g, dir[j]);
      DataIsNumbered(before, g, dir[j]);
    }
    BlockInserted(before, after, dir, i, r);
    assert DirOkBody(after, g, dir);
  }

  /** Setting bits and counting touches no contents. */
  lemma MetaTouches(before: seq<Byte>, after: seq<Byte>, g: Geometry)
    requires GroupOk(before, g) && GroupOk(after, g) && MetaOnly(before, after, g)
    requires forall j: nat :: Bit(BlockBits(before, g), j) ==> Bit(BlockBits(after, g), j)
    requires forall j: nat :: Bit(InodeBits(before, g), j) ==> Bit(InodeBits(after, g), j)
    ensures Touches(before, after, g, {}, {})
  {
    GroupMeans(before, g);
    BeforeData(g, |before|);
    forall i: nat | g.IsInode(i)
      ensures InodeNo(after, g, i) == InodeNo(before, g, i)
    {
      SameSlice(before, after, g.inodeTable * BLOCK_SIZE, |before|, InodeOffset(g.inodeTable, BitNo(i)), INODE_SIZE);
    }
    forall b: nat | g.IsData(b)
      ensures BlockAt(after, b) == BlockAt(before, b)
    {
      DataIsNumbered(before, g, b);
      SameSlice(before, after, g.inodeTable * BLOCK_SIZE, |before|, b * BLOCK_SIZE, BLOCK_SIZE);
    }
    assert TouchesBody(before, after, g, {}, {});
  }

  // ----- adding an entry

  function FreshInode(fileType: nat): Inode {
    EmptyInode().(mode := if fileType == FT_DIR then S_IFDIR else S_IFREG)
  }

  /** write_dir_entry_to_block on a block of the directory. */
  method PutRecord(m: Mkfs, block: nat, r: Record, ghost dir: seq<nat>, ghost i: nat) returns (ok: bool)
    requires m.Synced() && DirOk(m.img.bytes, m.g, dir) && i < |dir| && dir[i] == block
    requires r.inode < WORD && 0 < r.fileType < 256 && LegalName(r.name)
    modifies m.img`pos, m.img`bytes
    ensures m.Synced() && DirOk(m.img.bytes, m.g, dir)
    ensures ok <==> RecLen(|r.name|) <= Room(old(BlockAt(m.img.bytes, block)))
    ensures !ok ==> m.img.bytes == old(m.img.bytes)
    ensures ok ==>
      && Touches(old(m.img.bytes), m.img.bytes, m.g, {block}, {})
      && InodeBits(m.img.bytes, m.g) == old(InodeBits(m.img.bytes, m.g))
      && InsertedInto(old(DirRecords(m.img.bytes, dir)), DirRecords(m.img.bytes, dir), r)
    ensures ok ==> DescOf(m.img.bytes, 0) == old(DescOf(m.img.bytes, 0))
    ensures ok ==>
      var rooms := old(Rooms(m.img.bytes, dir)); Rooms(m.img.bytes, dir) == rooms[i := RoomAfter(|r.name|, rooms[i])]
  {
    ghost var a := m.img.bytes;
    DirMeans(a, m.g, dir);
    assert DirBlock(a, m.g, dir[i]);
    DataIsNumbered(a, m.g, block);
    ok := WriteEntryToBlock(m.img, block, r);
    if ok {
      BlockTouches(a, m.img.bytes, m.g, block);
      WriteKeepsCounts(a, m.img.bytes, m.g, block, BLOCK_SIZE);
      DirChanged(a, m.img.bytes, m.g, dir, i, r);
      RoomSet(a, m.img.bytes, m.g, dir, i);
    }
  }

  /** write_inode of a new inode, the super block's count, update_super_block. */
  method PutInode(m: Mkfs, ino: nat, n: Inode, ghost dir: seq<nat>)
    requires m.Synced() && DirOk(m.img.bytes, m.g, dir) && m.g.IsInode(ino) && n.Fits() &&
             !InodeUsed(m.img.bytes, m.g, ino)
    modifies m`super, m.img`pos, m.img`bytes
    ensures m.Synced() && SuperOf(m.img.bytes) == m.super && DirOk(m.img.bytes, m.g, dir)
    ensures DirRecords(m.img.bytes, dir) == old(DirRecords(m.img.bytes, dir))
    ensures Touches(old(m.img.bytes), m.img.bytes, m.g, {}, {ino})
    ensures InodeNo(m.img.bytes, m.g, ino) == n && InodeUsed(m.img.bytes, m.g, ino)
    ensures DescOf(m.img.bytes, 0).(freeInodes := DescOf(m.img.bytes, 0).freeInodes + 1) == old(DescOf(m.img.bytes, 0))
    ensures Rooms(m.img.bytes, dir) == old(Rooms(m.img.bytes, dir))
  {
    ghost var a := m.img.bytes;
    DirMeans(a, m.g, dir);
    m.WriteInode(ino, n);
    ghost var b := m.img.bytes;
    InodeTouches(a, b, m.g, ino);
    m.super := m.super.(freeInodes := m.super.freeInodes - 1);
    SuperStored(m, a, ino, n);
    TouchesMeans(a, m.img.bytes, m.g, {}, {ino});
    DirKept(a, m.img.bytes, m.g, dir, {}, {ino});
    RoomsKept(a, m.img.bytes, m.g, dir, {}, {ino});
  }

  /** update_super_block keeps an inode just stored. */
  method SuperStored(m: Mkfs, ghost a: seq<Byte>, ghost ino: nat, ghost n: Inode)
    requires m.Synced() && Touches(a, m.img.bytes, m.g, {}, {ino}) && m.g.IsInode(ino)
    requires InodeNo(m.img.bytes, m.g, ino) == n && InodeUsed(m.img.bytes, m.g, ino)
    modifies m.img`pos, m.img`bytes
    ensures m.Synced() && SuperOf(m.img.bytes) == m.super && Touches(a, m.img.bytes, m.g, {}, {ino})
    ensures DescOf(m.img.bytes, 0) == old(DescOf(m.img.bytes, 0))
    ensures InodeNo(m.img.bytes, m.g, ino) == n && InodeUsed(m.img.bytes, m.g, ino)
  {
    ghost var b := m.img.bytes;
    m.UpdateSuper();
    SuperTouches(b, m.img.bytes, m.g);
    TouchesMeans(b, m.img.bytes, m.g, {}, {});
    TouchesThen(a, b, m.img.bytes, m.g, {}, {ino}, {}, {});
    assert {ino} + {} == {ino};
  }

  // ----- one more directory block

  lemma TouchesWiden(before: seq<Byte>, after: seq<Byte>, g: Geometry, xs: set<nat>, ins: set<nat>, ys: set<nat>,
                     jns: set<nat>)
    requires Touches(before, after, g, xs, ins) && xs <= ys && ins <= jns
    ensures Touches(before, after, g, ys, jns)
  {
    TouchesMeans(before, after, g, xs, ins);
    assert TouchesBody(before, after, g, ys, jns);
  }

  lemma DirExtended(before: seq<Byte>, after: seq<Byte>, g: Geometry, dir: seq<nat>, block: nat)
    requires DirOk(before, g, dir) && |dir| < DIRECT_BLOCKS && Touches(before, after, g, {block}, {ROOT_INO})
    requires InodeNo(after, g, ROOT_INO) == RootInode(dir + [block])
    requires g.IsData(block) && !BlockUsed(before, g, block) && BlockUsed(after, g, block) &&
             PaddingAt(BlockAt(after, block), 0)
    ensures DirOk(after, g, dir + [block]) && DirRecords(after, dir + [block]) == DirRecords(before, dir)
  {
    DirMeans(before, g, dir);
    TouchesMeans(before, after, g, {block}, {ROOT_INO});
    NoRecord(BlockAt(after, block), 0);
    forall i | 0 <= i < |dir|
      ensures DirBlock(after, g, dir[i]) && BlockAt(after, dir[i]) == BlockAt(before, dir[i]) && dir[i] != block
    {
      assert DirBlock(before, g, dir[i]);
      DataIsNumbered(before, g, dir[i]);
    }
    RecordsSame(before, after, dir);
    DirJoin(after, dir, [block]);
    DirOne(after, block);
    assert DirOkBody(after, g, dir + [block]);
  }

  /** init_dir_block: a header of padding that covers the block. */
  method InitDirBlock(m: Mkfs, block: nat)
    requires m.Valid() && m.g.IsData(block)
    modifies m.img`pos, m.img`bytes
    ensures m.Valid() && OnlyRange(old(m.img.bytes), m.img.bytes, block * BLOCK_SIZE, BLOCK_SIZE)
    ensures PaddingAt(BlockAt(m.img.bytes, block), 0) && DescOf(m.img.bytes, 0) == old(DescOf(m.img.bytes, 0))
    ensures BlockBits(m.img.bytes, m.g) == old(BlockBits(m.img.bytes, m.g))
    ensures InodeBits(m.img.bytes, m.g) == old(InodeBits(m.img.bytes, m.g))
  {
    ghost var a := m.img.bytes;
    DataIsNumbered(a, m.g, block);
    var padding := HeaderBytes(Header(0, BLOCK_SIZE, 0, FT_UNKNOWN));
    m.img.Seek(block * BLOCK_SIZE);
    m.img.Write(padding);
    PaddingInBlock(a, block, padding);
    WriteKeepsCounts(a, m.img.bytes, m.g, block, BLOCK_SIZE);
  }

  lemma PaddingInBlock(bytes: seq<Byte>, block: nat, padding: seq<Byte>)
    requires HasBlock(bytes, block) && padding == HeaderBytes(Header(0, BLOCK_SIZE, 0, FT_UNKNOWN))
    ensures var after := Overwrite(bytes, block * BLOCK_SIZE, padding);
            OnlyRange(bytes, after, block * BLOCK_SIZE, BLOCK_SIZE) && PaddingAt(BlockAt(after, block), 0)
  {
    OverwrittenBlock(bytes, block, 0, padding);
    var b := BlockAt(Overwrite(bytes, block * BLOCK_SIZE, padding), block);
    assert b[0..ENTRY_HEADER] == padding;
    HeaderRead(b, 0, Header(0, BLOCK_SIZE, 0, FT_UNKNOWN));
  }

  /** The steps of write_entry_to_blocks for a pointer that is still zero. */
  method ExtendDir(m: Mkfs, inode: Inode, i: nat, ghost dir: seq<nat>) returns (ok: bool, block: nat)
    requires m.Synced() && DirOk(m.img.bytes, m.g, dir) && i == |dir| < DIRECT_BLOCKS && inode == RootInode(dir)
    modifies m`super, m.img`pos, m.img`bytes
    ensures ok ==>
      && m.Synced() && DirOk(m.img.bytes, m.g, dir + [block])
      && DirRecords(m.img.bytes, dir + [block]) == old(DirRecords(m.img.bytes, dir))
      && Touches(old(m.img.bytes), m.img.bytes, m.g, {block}, {ROOT_INO})
      && m.g.IsData(block) && !old(BlockUsed(m.img.bytes, m.g, block))
      && InodeBits(m.img.bytes, m.g) == old(InodeBits(m.img.bytes, m.g))
    ensures ok <==> old(DescOf(m.img.bytes, 0)).freeBlocks > 0
    ensures ok ==>
      && DescOf(m.img.bytes, 0).(freeBlocks := DescOf(m.img.bytes, 0).freeBlocks + 1) == old(DescOf(m.img.bytes, 0))
      && Rooms(m.img.bytes, dir + [block]) == old(Rooms(m.img.bytes, dir)) + [BLOCK_SIZE]
  {
    ghost var a := m.img.bytes;
    DirMeans(a, m.g, dir);
    ok, block := m.AllocBlock();
    if ok {
      InitDirBlock(m, block);
      ghost var b := m.img.bytes;
      DataIsNumbered(a, m.g, block);
      MoreBlocks(dir, block);
      m.UpdateInode(ROOT_INO, inode.(blocks := inode.blocks[i := block]));
      ghost var c := m.img.bytes;
      CountBlock(m, block);
      ExtendTouches(a, b, c, m.img.bytes, m.g, block);
      DirExtended(a, m.img.bytes, m.g, dir, block);
      RoomsExtended(a, m.img.bytes, m.g, dir, block);
    }
  }

  lemma RoomsExtended(a: seq<Byte>, e: seq<Byte>, g: Geometry, dir: seq<nat>, block: nat)
    requires DirOk(a, g, dir) && Touches(a, e, g, {block}, {ROOT_INO}) && g.IsData(block) && !BlockUsed(a, g, block)
    requires PaddingAt(BlockAt(e, block), 0)
    ensures Rooms(e, dir + [block]) == Rooms(a, dir) + [BLOCK_SIZE]
  {
    DirBlocksAreData(a, g, dir);
    RoomsKept(a, e, g, dir, {block}, {ROOT_INO});
    RoomsMore(e, dir, block);
  }

  lemma MoreBlocks(dir: seq<nat>, block: nat)
    requires |dir| < DIRECT_BLOCKS && block < WORD
    ensures RootInode(dir).(blocks := RootInode(dir).blocks[|dir| := block]) == RootInode(dir + [block])
  {
    assert Padded(dir + [block], INODE_BLOCKS) == Padded(dir, INODE_BLOCKS)[|dir| := block];
  }

  /** update_block_bitmap, the super block's count, update_super_block. */
  method CountBlock(m: Mkfs, block: nat)
    requires m.Synced() && m.g.IsData(block) && !BlockUsed(m.img.bytes, m.g, block)
    modifies m`super, m.img`pos, m.img`bytes
    ensures m.Synced() && SuperOf(m.img.bytes) == m.super && Touches(old(m.img.bytes), m.img.bytes, m.g, {}, {})
    ensures BlockUsed(m.img.bytes, m.g, block) && InodeBits(m.img.bytes, m.g) == old(InodeBits(m.img.bytes, m.g))
    ensures DescOf(m.img.bytes, 0).(freeBlocks := DescOf(m.img.bytes, 0).freeBlocks + 1) == old(DescOf(m.img.bytes, 0))
  {
    ghost var c := m.img.bytes;
    m.UpdateBlockBitmap(block);
    ghost var d := m.img.bytes;
    MetaTouches(c, d, m.g);
    m.super := m.super.(freeBlocks := m.super.freeBlocks - 1);
    m.UpdateSuper();
    SuperTouches(d, m.img.bytes, m.g);
    TouchesThen(c, d, m.img.bytes, m.g, {}, {}, {}, {});
  }

  lemma ExtendTouches(a: seq<Byte>, b: seq<Byte>, c: seq<Byte>, e: seq<Byte>, g: Geometry, block: nat)
    requires GroupOk(a, g) && g.IsData(block) && g.IsInode(ROOT_INO) && GroupOk(c, g)
    requires OnlyRange(a, b, block * BLOCK_SIZE, BLOCK_SIZE)
    requires OnlyRange(b, c, InodeOffset(g.inodeTable, BitNo(ROOT_INO)), INODE_SIZE)
    requires BlockBits(c, g) == BlockBits(b, g) == BlockBits(a, g) &&
             InodeBits(c, g) == InodeBits(b, g) == InodeBits(a, g)
    requires Touches(c, e, g, {}, {})
    ensures Touches(a, e, g, {block}, {ROOT_INO})
    ensures InodeNo(e, g, ROOT_INO) == InodeNo(c, g, ROOT_INO) && BlockAt(e, block) == BlockAt(b, block)
  {
    BlockTouches(a, b, g, block);
    WriteKeepsCounts(a, b, g, block, BLOCK_SIZE);
    RootTouches(b, c, g);
    TouchesThen(a, b, c, g, {block}, {}, {}, {ROOT_INO});
    TouchesThen(a, c, e, g, {block} + {}, {} + {ROOT_INO}, {}, {});
    assert {block} + {} + {} == {block} && {} + {ROOT_INO} + {} == {ROOT_INO};
    TouchesMeans(b, c, g, {}, {ROOT_INO});
    TouchesMeans(c, e, g, {}, {});
    DataIsNumbered(a, g, block);
  }

  lemma RootTouches(b: seq<Byte>, c: seq<Byte>, g: Geometry)
    requires GroupOk(b, g) && GroupOk(c, g) && g.IsInode(ROOT_INO)
    requires OnlyRange(b, c, InodeOffset(g.inodeTable, BitNo(ROOT_INO)), INODE_SIZE)
    requires BlockBits(c, g) == BlockBits(b, g) && InodeBits(c, g) == InodeBits(b, g)
    ensures Touches(b, c, g, {}, {ROOT_INO})
  {
    GroupMeans(b, g);
    BeforeData(g, |b|);
    InodeTouches(b, c, g, ROOT_INO);
  }

  // ----- write_entry_to_dir

  /** `Exits`: the program ends for want of a block or an inode. `NoRoom`: the direct blocks are full. */
  datatype Outcome = Done | Exits | NoRoom

  /** Keeps `Searching` closed: what it says is in view only where a key is stated. */
  ghost predicate AddKey(k: int) {
    true
  }

  /** The state of the search for room, begun at `a`: the directory may have grown, its records have not changed. */
  ghost predicate SearchingBody(a: seq<Byte>, b: seq<Byte>, g: Geometry, dir: seq<nat>, dir': seq<nat>) {
    && DirOk(a, g, dir) && DirOk(b, g, dir') && DirRecords(b, dir') == DirRecords(a, dir)
    && Touches(a, b, g, AsSet(dir'), {ROOT_INO}) && InodeBits(b, g) == InodeBits(a, g)
    && (forall x :: x in dir' ==> x in dir || !BlockUsed(a, g, x))
  }

  ghost predicate Searching(a: seq<Byte>, b: seq<Byte>, g: Geometry, dir: seq<nat>, dir': seq<nat>) {
    forall k {:trigger AddKey(k)} :: AddKey(k) ==> SearchingBody(a, b, g, dir, dir')
  }

  lemma StartSearch(a: seq<Byte>, g: Geometry, dir: seq<nat>)
    requires DirOk(a, g, dir)
    ensures Searching(a, a, g, dir, dir)
  {
    DirMeans(a, g, dir);
    TouchesNothing(a, g);
    TouchesWiden(a, a, g, {}, {}, AsSet(dir), {ROOT_INO});
    assert SearchingBody(a, a, g, dir, dir);
  }

  lemma SearchExtended(a: seq<Byte>, b: seq<Byte>, c: seq<Byte>, g: Geometry, dir: seq<nat>, dir': seq<nat>, block: nat)
    requires Searching(a, b, g, dir, dir') && DirOk(c, g, dir' + [block]) &&
             DirRecords(c, dir' + [block]) == DirRecords(b, dir')
    requires Touches(b, c, g, {block}, {ROOT_INO}) && !BlockUsed(b, g, block) && g.IsData(block)
    requires InodeBits(c, g) == InodeBits(b, g)
    ensures Searching(a, c, g, dir, dir' + [block])
  {
    assert AddKey(0);
    TouchesMeans(a, b, g, AsSet(dir'), {ROOT_INO});
    DataIsNumbered(b, g, block);
    TouchesThen(a, b, c, g, AsSet(dir'), {ROOT_INO}, {block}, {ROOT_INO});
    assert AsSet(dir' + [block]) == AsSet(dir') + {block} && {ROOT_INO} + {ROOT_INO} == {ROOT_INO};
    assert SearchingBody(a, c, g, dir, dir' + [block]);
  }

  /** What adding an entry leaves: its record, a new inode for it, and otherwise the directory as it was. */
  ghost predicate Added(a: seq<Byte>, b: seq<Byte>, g: Geometry, dir: seq<nat>, dir': seq<nat>, r: Record) {
    && DirOk(b, g, dir') && InsertedInto(DirRecords(a, dir), DirRecords(b, dir'), r)
    && Touches(a, b, g, AsSet(dir'), {ROOT_INO, r.inode})
    && (forall x :: x in dir' ==> x in dir || !BlockUsed(a, g, x))
    && g.IsInode(r.inode) && !InodeUsed(a, g, r.inode) && InodeUsed(b, g, r.inode)
    && InodeNo(b, g, r.inode) == FreshInode(r.fileType)
  }

  lemma EntryAdded(a: seq<Byte>, b: seq<Byte>, c: seq<Byte>, d: seq<Byte>, g: Geometry, dir: seq<nat>, dir': seq<nat>,
                   i: nat, r: Record)
    requires Searching(a, b, g, dir, dir') && i < |dir'| && Touches(b, c, g, {dir'[i]}, {})
    requires InsertedInto(DirRecords(b, dir'), DirRecords(c, dir'), r)
    requires Touches(c, d, g, {}, {r.inode}) && DirOk(d, g, dir') && DirRecords(d, dir') == DirRecords(c, dir')
    requires g.IsInode(r.inode) && !InodeUsed(b, g, r.inode) && InodeUsed(d, g, r.inode)
    requires InodeNo(d, g, r.inode) == FreshInode(r.fileType)
    ensures Added(a, d, g, dir, dir', r)
  {
    assert AddKey(0);
    EntryTouches(a, b, c, d, g, dir', i, r.inode);
    assert InsertedInto(DirRecords(a, dir), DirRecords(d, dir'), r);
    assert InodeUsed(a, g, r.inode) == InodeUsed(b, g, r.inode);
  }

  lemma EntryTouches(a: seq<Byte>, b: seq<Byte>, c: seq<Byte>, d: seq<Byte>, g: Geometry, dir': seq<nat>, i: nat,
                     ino: nat)
    requires Touches(a, b, g, AsSet(dir'), {ROOT_INO}) && i < |dir'| && Touches(b, c, g, {dir'[i]}, {})
    requires Touches(c, d, g, {}, {ino})
    ensures Touches(a, d, g, AsSet(dir'), {ROOT_INO, ino})
  {
    TouchesThen(b, c, d, g, {dir'[i]}, {}, {}, {ino});
    TouchesThen(a, b, d, g, AsSet(dir'), {ROOT_INO}, {dir'[i]} + {}, {} + {ino});
    assert dir'[i] in AsSet(dir');
    assert AsSet(dir') + ({dir'[i]} + {}) == AsSet(dir') && {ROOT_INO} + ({} + {ino}) == {ROOT_INO, ino};
  }

  /** Pointers of the root inode are zero exactly behind the directory's blocks. */
  lemma SearchPointers(a: seq<Byte>, b: seq<Byte>, g: Geometry, dir: seq<nat>, dir': seq<nat>, i: nat)
    requires Searching(a, b, g, dir, dir') && i < DIRECT_BLOCKS && i <= |dir'| <= DIRECT_BLOCKS
    ensures DirOk(b, g, dir') && InodeBits(b, g) == InodeBits(a, g)
    ensures RootInode(dir').blocks[i] == 0 <==> i == |dir'|
    ensures i < |dir'| ==> RootInode(dir').blocks[i] == dir'[i]
  {
    assert AddKey(0);
    DirMeans(b, g, dir');
    if i < |dir'| {
      assert DirBlock(b, g, dir'[i]);
      DataIsNumbered(b, g, dir'[i]);
    }
  }

  /** One inode less, and the record is in block `i`. */
  ghost predicate EntrySpace(s: Space, s': Space, i: nat, r: Record) {
    && s'.blocks == s.blocks && s'.inodes + 1 == s.inodes
    && i < |s.rooms| && s'.rooms == s.rooms[i := RoomAfter(|r.name|, s.rooms[i])]
  }

  lemma EntryPlaced(s: Space, s': Space, i: nat, r: Record)
    requires EntrySpace(s, s', i, r) && TooSmall(s.rooms, i, r) && RecLen(|r.name|) <= s.rooms[i]
    ensures EntryFits(s, |r.name|) && s' == AfterEntry(s, |r.name|)
  {
    FirstFitIs(s.rooms, |r.name|, i);
  }

  /** The record, if its block has room, then the inode. */
  method PutEntry(m: Mkfs, block: nat, r: Record, ghost a: seq<Byte>, ghost dir: seq<nat>, ghost dir': seq<nat>,
                  ghost i: nat)
    returns (ok: bool)
    requires m.Synced() && Searching(a, m.img.bytes, m.g, dir, dir') && i < |dir'| <= DIRECT_BLOCKS && dir'[i] == block
    requires i < DIRECT_BLOCKS
    requires LegalName(r.name) && 0 < r.fileType < 256 && m.g.IsInode(r.inode) && !InodeUsed(a, m.g, r.inode)
    modifies m`super, m.img`pos, m.img`bytes
    ensures !ok ==> m.Synced() && m.img.bytes == old(m.img.bytes)
    ensures ok ==>
      && m.Synced() && SuperOf(m.img.bytes) == m.super && Added(a, m.img.bytes, m.g, dir, dir', r)
    ensures ok <==> RecLen(|r.name|) <= old(Rooms(m.img.bytes, dir'))[i]
    ensures ok ==> EntrySpace(old(SpaceOf(m.img.bytes, dir')), SpaceOf(m.img.bytes, dir'), i, r)
  {
    ghost var b := m.img.bytes;
    SearchPointers(a, b, m.g, dir, dir', i);
    InodeIsWord(b, m.g, r.inode);
    ok := PutRecord(m, block, r, dir', i);
    if ok {
      ghost var c := m.img.bytes;
      PutInode(m, r.inode, FreshInode(r.fileType), dir');
      EntryAdded(a, b, c, m.img.bytes, m.g, dir, dir', i, r);
    }
  }

  lemma InodeIsWord(bytes: seq<Byte>, g: Geometry, ino: nat)
    requires GroupOk(bytes, g) && g.IsInode(ino)
    ensures ino < WORD
  {
    GroupMeans(bytes, g);
  }

  /** write_entry_to_dir for the root directory, as far as its direct blocks go. */
  method WriteEntryToDir(m: Mkfs, name: seq<Byte>, fileType: nat, ghost dir: seq<nat>)
    returns (out: Outcome, ino: nat, ghost dir': seq<nat>)
    requires m.Synced() && DirOk(m.img.bytes, m.g, dir) && LegalName(name) && 0 < fileType < 256
    modifies m`super, m.img`pos, m.img`bytes
    ensures out == Done ==>
      && m.Synced() && SuperOf(m.img.bytes) == m.super
      && Added(old(m.img.bytes), m.img.bytes, m.g, dir, dir', Record(ino, fileType, name))
    ensures var s := old(SpaceOf(m.img.bytes, dir));
            && (out == Done <==> EntryFits(s, |name|))
            && (out == Done ==> SpaceOf(m.img.bytes, dir') == AfterEntry(s, |name|))
            && (out == NoRoom <==> s.inodes > 0 && FirstFit(s.rooms, |name|) == |s.rooms| == DIRECT_BLOCKS)
  {
    ghost var a := m.img.bytes;
    DirMeans(a, m.g, dir);
    out, dir' := Exits, dir;
    var inode := m.GetInode(ROOT_INO);
    var ok;
    ok, ino := m.AllocInode();
    if ok {
      out, dir' := WriteEntryToBlocks(m, inode, Record(ino, fileType, name), dir);
    }
  }

  /** What the search has come to, begun with the image `a`. */
  ghost predicate Outcomes(a: seq<Byte>, b: seq<Byte>, g: Geometry, dir: seq<nat>, dir': seq<nat>, r: Record,
                           out: Outcome) {
    var s := SpaceOf(a, dir);
    match out
    case Done => Added(a, b, g, dir, dir', r) && EntryFits(s, |r.name|) && SpaceOf(b, dir') == AfterEntry(s, |r.name|)
    case Exits => !EntryFits(s, |r.name|) && |dir| < DIRECT_BLOCKS
    case NoRoom => FirstFit(s.rooms, |r.name|) == |dir| == DIRECT_BLOCKS
  }

  /** write_entry_to_blocks, for the direct blocks. */
  method WriteEntryToBlocks(m: Mkfs, inode: Inode, r: Record, ghost dir: seq<nat>)
    returns (out: Outcome, ghost dir': seq<nat>)
    requires m.Synced() && DirOk(m.img.bytes, m.g, dir) && |dir| <= DIRECT_BLOCKS && inode == RootInode(dir)
    requires LegalName(r.name) && 0 < r.fileType < 256 && m.g.IsInode(r.inode) && !InodeUsed(m.img.bytes, m.g, r.inode)
    requires DescOf(m.img.bytes, 0).freeInodes > 0
    modifies m`super, m.img`pos, m.img`bytes
    ensures out == Done ==> m.Synced() && SuperOf(m.img.bytes) == m.super
    ensures Outcomes(old(m.img.bytes), m.img.bytes, m.g, dir, dir', r, out)
  {
    ghost var a := m.img.bytes;
    out, dir' := NoRoom, dir;
    var i := 0;
    while i < DIRECT_BLOCKS && out == NoRoom
      invariant 0 <= i <= DIRECT_BLOCKS
      invariant out == NoRoom ==> i <= |dir| && m.Synced() && m.img.bytes == a && TooSmall(Rooms(a, dir), i, r)
      invariant out == Done ==> m.Synced() && SuperOf(m.img.bytes) == m.super
      invariant out != NoRoom ==> Outcomes(a, m.img.bytes, m.g, dir, dir', r, out)
      decreases DIRECT_BLOCKS - i, out == NoRoom
    {
      out, dir' := TryBlock(m, inode, i, r, dir);
      i := i + 1;
    }
    if out == NoRoom {
      FirstFitIs(Rooms(a, dir), |r.name|, |dir|);
    }
  }

  ghost predicate TooSmall(rooms: seq<nat>, i: nat, r: Record) {
    i <= |rooms| && forall j :: 0 <= j < i ==> rooms[j] < RecLen(|r.name|)
  }

  /** One round of write_entry_to_blocks, after no earlier block had room. */
  method TryBlock(m: Mkfs, inode: Inode, i: nat, r: Record, ghost dir: seq<nat>)
    returns (out: Outcome, ghost dir': seq<nat>)
    requires m.Synced() && DirOk(m.img.bytes, m.g, dir) && i <= |dir| <= DIRECT_BLOCKS && i < DIRECT_BLOCKS
    requires inode == RootInode(dir) && TooSmall(Rooms(m.img.bytes, dir), i, r)
    requires LegalName(r.name) && 0 < r.fileType < 256 && m.g.IsInode(r.inode) && !InodeUsed(m.img.bytes, m.g, r.inode)
    requires DescOf(m.img.bytes, 0).freeInodes > 0
    modifies m`super, m.img`pos, m.img`bytes
    ensures out == NoRoom ==>
      && m.Synced() && m.img.bytes == old(m.img.bytes) && dir' == dir && i < |dir| &&
         TooSmall(Rooms(m.img.bytes, dir), i + 1, r)
    ensures out == Done ==> m.Synced() && SuperOf(m.img.bytes) == m.super
    ensures out != NoRoom ==> Outcomes(old(m.img.bytes), m.img.bytes, m.g, dir, dir', r, out)
  {
    ghost var a := m.img.bytes;
    out, dir' := NoRoom, dir;
    StartSearch(a, m.g, dir);
    SearchPointers(a, a, m.g, dir, dir, i);
    if inode.blocks[i] == 0 {
      FirstFitIs(Rooms(a, dir), |r.name|, i);
      out, dir' := TryNewBlock(m, inode, i, r, dir);
    } else {
      var ok := PutEntry(m, inode.blocks[i], r, a, dir, dir, i);
      if ok {
        EntryPlaced(SpaceOf(a, dir), SpaceOf(m.img.bytes, dir), i, r);
        out := Done;
      }
    }
  }

  /** A new block for the directory, which has room for any record. */
  method TryNewBlock(m: Mkfs, inode: Inode, i: nat, r: Record, ghost dir: seq<nat>)
    returns (out: Outcome, ghost dir': seq<nat>)
    requires m.Synced() && DirOk(m.img.bytes, m.g, dir) && i == |dir| < DIRECT_BLOCKS && inode == RootInode(dir)
    requires LegalName(r.name) && 0 < r.fileType < 256 && m.g.IsInode(r.inode) && !InodeUsed(m.img.bytes, m.g, r.inode)
    modifies m`super, m.img`pos, m.img`bytes
    ensures out != NoRoom && (out == Done <==> old(DescOf(m.img.bytes, 0)).freeBlocks > 0)
    ensures out == Done ==>
      && m.Synced() && SuperOf(m.img.bytes) == m.super && Added(old(m.img.bytes), m.img.bytes, m.g, dir, dir', r)
      && var s := old(SpaceOf(m.img.bytes, dir));
         && s.inodes > 0
         && SpaceOf(m.img.bytes, dir') == Space(s.blocks - 1, s.inodes - 1, s.rooms + [RoomAfter(|r.name|, BLOCK_SIZE)])
  {
    ghost var a := m.img.bytes;
    dir' := dir;
    StartSearch(a, m.g, dir);
    var ok, block := ExtendDir(m, inode, i, dir);
    if !ok {
      return Exits, dir;
    }
    ghost var b := m.img.bytes;
    SearchExtended(a, a, b, m.g, dir, dir, block);
    dir' := dir + [block];
    SearchPointers(a, b, m.g, dir, dir', i);
    var written := PutEntry(m, block, r, a, dir, dir', i);
    NewRooms(Rooms(a, dir), r);
    out := Done;
  }

  lemma NewRooms(rooms: seq<nat>, r: Record)
    requires LegalName(r.name)
    ensures RecLen(|r.name|) <= BLOCK_SIZE
    ensures (rooms + [BLOCK_SIZE])[|rooms| := RoomAfter(|r.name|, BLOCK_SIZE)]
            == rooms + [RoomAfter(|r.name|, BLOCK_SIZE)]
  {
  }
}
