/** Reading all of a file through its direct, single, double and triple indirect pointers. */
module FileWalk {
  import opened Bytes
  import opened DirectoryBlock
  import opened ImageFile
  import opened DiskFormat
  import opened Volume
  import opened FileTree
  import opened BlockGrowth
  import opened FileCopier
  import RootDirectory
  import opened VolumeFiles

  /** The data blocks behind the pointers of an inode: those of the direct ones, then level by level. */
  ghost function WalkInode(bytes: seq<Byte>, pointers: seq<nat>): seq<nat>
    requires |pointers| == INODE_BLOCKS
  {
    WalkAll(bytes, pointers[..DIRECT_BLOCKS], 1) + WalkLevels(bytes, pointers, 1)
  }

  /** The data blocks behind the indirect pointers from that level on. */
  ghost function WalkLevels(bytes: seq<Byte>, pointers: seq<nat>, level: nat): seq<nat>
    requires |pointers| == INODE_BLOCKS && 1 <= level <= 4
    decreases 4 - level
  {
    if level == 4 then [] else WalkLevel(bytes, pointers, level) + WalkLevels(bytes, pointers, level + 1)
  }

  ghost function WalkLevel(bytes: seq<Byte>, pointers: seq<nat>, level: nat): seq<nat>
    requires |pointers| == INODE_BLOCKS && 1 <= level <= 3
  {
    var pointer := pointers[DIRECT_BLOCKS + level - 1];
    if pointer == 0 then [] else Walk(bytes, pointer, level)
  }

  /** The bytes of these blocks, one after the other. */
  ghost function Joined(bytes: seq<Byte>, blocks: seq<nat>): seq<Byte> {
    if blocks == [] then [] else BlockAt(bytes, blocks[0]) + Joined(bytes, blocks[1..])
  }

  /** The bytes of the file that an inode describes. */
  ghost function Content(bytes: seq<Byte>, n: Inode): seq<Byte>
    requires |n.blocks| == INODE_BLOCKS
  {
    var all := Joined(bytes, WalkInode(bytes, n.blocks));
    if n.size <= |all| then all[..n.size] else all
  }

  lemma BlocksNumbered(bytes: seq<Byte>, g: Geometry, blocks: set<nat>)
    requires GroupOk(bytes, g) && forall b :: b in blocks ==> g.IsData(b)
    ensures Numbered(blocks)
  {
    forall b | b in blocks
      ensures 0 < b < WORD
    {
      DataIsNumbered(bytes, g, b);
    }
  }

  lemma WalkDirect(bytes: seq<Byte>, ts: seq<Tree>, zeros: seq<nat>)
    requires StoredAll(bytes, ts, 0) && Numbered(BlocksOf(ts)) && forall j :: 0 <= j < |zeros| ==> zeros[j] == 0
    ensures WalkAll(bytes, Roots(ts) + zeros, 1) == LeavesOf(ts)
  {
    WalkAllFinds(bytes, ts, 0, 1, zeros);
    assert Roots(ts)[0..] == Roots(ts);
    LeavesFromAll(ts);
  }

  lemma DirectPart(direct: seq<Tree>, indirect: seq<Tree>)
    requires |direct| <= DIRECT_BLOCKS && |indirect| <= 3
    ensures |Pointers(direct, indirect)| == INODE_BLOCKS
    ensures Pointers(direct, indirect)[..DIRECT_BLOCKS] == Roots(direct) + NoPointers(DIRECT_BLOCKS - |direct|)
  {
  }

  lemma LevelPart(direct: seq<Tree>, indirect: seq<Tree>, level: nat)
    requires |direct| <= DIRECT_BLOCKS && |indirect| <= 3 && 1 <= level <= 3
    ensures |Pointers(direct, indirect)| == INODE_BLOCKS
    ensures Pointers(direct, indirect)[DIRECT_BLOCKS + level - 1]
            == if level <= |indirect| then Roots(indirect)[level - 1] else 0
  {
  }

  lemma WalkOneLevel(bytes: seq<Byte>, direct: seq<Tree>, indirect: seq<Tree>, level: nat)
    requires |direct| <= DIRECT_BLOCKS && |indirect| <= 3 && 1 <= level <= 3
    requires StoredByLevel(bytes, indirect) && Numbered(BlocksOf(indirect)) &&
             |Pointers(direct, indirect)| == INODE_BLOCKS
    ensures WalkLevel(bytes, Pointers(direct, indirect), level)
            == if level <= |indirect| then Leaves(indirect[level - 1]) else []
  {
    LevelPart(direct, indirect, level);
    if level <= |indirect| {
      RootsNumbered(indirect);
      assert Stored(bytes, indirect[level - 1], level - 1 + 1);
      WalkFinds(bytes, indirect[level - 1], level);
    }
  }

  lemma {:induction false} WalkAllLevels(bytes: seq<Byte>, direct: seq<Tree>, indirect: seq<Tree>, level: nat)
    requires |direct| <= DIRECT_BLOCKS && |indirect| <= 3 && 1 <= level <= 4
    requires StoredByLevel(bytes, indirect) && Numbered(BlocksOf(indirect)) &&
             |Pointers(direct, indirect)| == INODE_BLOCKS
    ensures WalkLevels(bytes, Pointers(direct, indirect), level) ==
            if level <= |indirect| then LeavesFrom(indirect, level - 1) else []
    decreases 4 - level
  {
    if level < 4 {
      WalkOneLevel(bytes, direct, indirect, level);
      WalkAllLevels(bytes, direct, indirect, level + 1);
    }
  }

  lemma WalkPointers(bytes: seq<Byte>, direct: seq<Tree>, indirect: seq<Tree>)
    requires |direct| <= DIRECT_BLOCKS && |indirect| <= 3
    requires StoredAll(bytes, direct, 0) && StoredByLevel(bytes, indirect)
    requires Numbered(BlocksOf(direct)) && Numbered(BlocksOf(indirect))
    ensures |Pointers(direct, indirect)| == INODE_BLOCKS
    ensures WalkInode(bytes, Pointers(direct, indirect)) == LeavesOf(direct) + LeavesOf(indirect)
  {
    DirectPart(direct, indirect);
    WalkDirect(bytes, direct, NoPointers(DIRECT_BLOCKS - |direct|));
    WalkAllLevels(bytes, direct, indirect, 1);
    LeavesFromAll(indirect);
  }

  /** The walk finds the data blocks of the file, in order. */
  lemma InodeWalk(bytes: seq<Byte>, g: Geometry, f: File)
    requires GroupOk(bytes, g) && FileOk(bytes, g, f)
    ensures |InodeNo(bytes, g, f.ino).blocks| == INODE_BLOCKS
    ensures WalkInode(bytes, InodeNo(bytes, g, f.ino).blocks) == f.DataBlocks()
  {
    FileMeans(bytes, g, f);
    BlocksNumbered(bytes, g, BlocksOf(f.direct));
    BlocksNumbered(bytes, g, BlocksOf(f.indirect));
    WalkPointers(bytes, f.direct, f.indirect);
  }

  /** Blocks that hold the chunks of a file from the `k`th to the last amount to its bytes from there on. */
  lemma {:induction false} JoinedIsData(bytes: seq<Byte>, blocks: seq<nat>, data: seq<Byte>, k: nat)
    requires HoldChunks(bytes, blocks, data, k) && k + |blocks| == BlocksFor(|data|) && k * BLOCK_SIZE <= |data|
    requires forall b :: b in blocks ==> HasBlock(bytes, b)
    ensures data[k * BLOCK_SIZE..] <= Joined(bytes, blocks)
    decreases |blocks|
  {
    if blocks != [] {
      assert HoldsChunk(bytes, blocks[0], data, k + 0) && blocks[0] in blocks;
      ChunkInBlock(bytes, blocks[0], data, k);
      if |blocks| > 1 {
        RestHolds(bytes, blocks, data, k);
        JoinedIsData(bytes, blocks[1..], data, k + 1);
        ChunkThen(data, k);
        PrefixJoins(Chunk(data, k), data[(k + 1) * BLOCK_SIZE..], Joined(bytes, blocks[1..]));
      } else {
        assert data[k * BLOCK_SIZE..] == Chunk(data, k);
      }
    }
  }

  lemma ChunkInBlock(bytes: seq<Byte>, block: nat, data: seq<Byte>, k: nat)
    requires HoldsChunk(bytes, block, data, k) && HasBlock(bytes, block)
    ensures Chunk(data, k) <= BlockAt(bytes, block)
    ensures |Chunk(data, k)| == BLOCK_SIZE ==> Chunk(data, k) == BlockAt(bytes, block)
  {
    SliceInBlock(bytes, block, 0, |Chunk(data, k)|);
  }

  lemma RestHolds(bytes: seq<Byte>, blocks: seq<nat>, data: seq<Byte>, k: nat)
    requires HoldChunks(bytes, blocks, data, k) && blocks != []
    ensures HoldChunks(bytes, blocks[1..], data, k + 1)
  {
    var next, rest := k + 1, blocks[1..];
    forall i | 0 <= i < |rest|
      ensures HoldsChunk(bytes, rest[i], data, next + i)
    {
      assert HoldsChunk(bytes, blocks[i + 1], data, k + (i + 1));
    }
  }

  /** A chunk that is not the last is a whole block. */
  lemma ChunkThen(data: seq<Byte>, k: nat)
    requires k + 1 < BlocksFor(|data|)
    ensures (k + 1) * BLOCK_SIZE <= |data| && |Chunk(data, k)| == BLOCK_SIZE
    ensures data[k * BLOCK_SIZE..] == Chunk(data, k) + data[(k + 1) * BLOCK_SIZE..]
  {
  }

  lemma PrefixJoins(a: seq<Byte>, b: seq<Byte>, c: seq<Byte>)
    requires b <= c
    ensures a + b <= a + c
  {
  }

  /** Whatever its size, the bytes that the image has for a file are its data. */
  lemma FileContent(bytes: seq<Byte>, g: Geometry, f: File)
    requires GroupOk(bytes, g) && FileOk(bytes, g, f)
    ensures |InodeNo(bytes, g, f.ino).blocks| == INODE_BLOCKS && Content(bytes, InodeNo(bytes, g, f.ino)) == f.data
  {
    InodeWalk(bytes, g, f);
    FileMeans(bytes, g, f);
    forall b | b in f.DataBlocks()
      ensures HasBlock(bytes, b)
    {
      DataBlocksAreBlocks(f, b);
      DataIsNumbered(bytes, g, b);
    }
    JoinedIsData(bytes, f.DataBlocks(), f.data, 0);
  }

  /** All files of a volume, found by name in its directory, have their data behind their pointers. */
  lemma VolumeContent(bytes: seq<Byte>, g: Geometry, dir: seq<nat>, files: Files, name: seq<Byte>)
    requires VolumeOk(bytes, g, dir, files) && GroupOk(bytes, g) && name in files
    ensures var n := InodeNo(bytes, g, Find(RootDirectory.DirRecords(bytes, dir), name));
            |n.blocks| == INODE_BLOCKS && Content(bytes, n) == files[name].data
  {
    VolumeMeans(bytes, g, dir, files);
    FileContent(bytes, g, files[name]);
  }
}
