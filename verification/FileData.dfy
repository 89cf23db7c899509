/** Writing all the data of a file behind the pointers of an inode. */
module FileData {
  import opened Units
  import opened Bytes
  import opened DirectoryBlock
  import opened ImageFile
  import opened DiskFormat
  import opened Volume
  import opened FileTree
  import opened BlockGrowth
  import opened ImageWriter
  import opened FileWriter
  import opened VolumeFiles

  /** Keeps `Filed` closed: what it says is in view only where a key is stated. */
  ghost predicate FiledKey(k: int) {
    true
  }

  /** Between two images, exactly the blocks of these trees were taken, and together they hold the file so far. */
  ghost predicate FiledBody(before: seq<Byte>, after: seq<Byte>, g: Geometry, f: File) {
    && Grown(before, after, g, f.AllBlocks())
    && ApartAll(f.direct) && ApartAll(f.indirect) && BlocksOf(f.direct) !! BlocksOf(f.indirect)
    && StoredAll(after, f.direct, 0) && StoredByLevel(after, f.indirect)
    && HoldChunks(after, f.DataBlocks(), f.data, 0)
  }

  ghost predicate Filed(before: seq<Byte>, after: seq<Byte>, g: Geometry, f: File) {
    forall k {:trigger FiledKey(k)} :: FiledKey(k) ==> FiledBody(before, after, g, f)
  }

  lemma FiledMeans(before: seq<Byte>, after: seq<Byte>, g: Geometry, f: File)
    requires Filed(before, after, g, f)
    ensures FiledBody(before, after, g, f)
  {
    assert FiledKey(0);
  }

  lemma FiledDirect(before: seq<Byte>, after: seq<Byte>, g: Geometry, f: File)
    requires Planted(before, after, g, f.direct, 0, f.data, 0) && f.indirect == []
    ensures Filed(before, after, g, f)
  {
    PlantedMeans(before, after, g, f.direct, 0, f.data, 0);
    assert f.AllBlocks() == BlocksOf(f.direct) && f.DataBlocks() == LeavesOf(f.direct);
    assert FiledBody(before, after, g, f);
  }

  lemma MoreIndirect(f: File, t: Tree)
    ensures var f' := f.(indirect := f.indirect + [t]);
            && f'.AllBlocks() == f.AllBlocks() + Blocks(t) && f'.DataBlocks() == f.DataBlocks() + Leaves(t)
            && BlocksOf(f'.indirect) == BlocksOf(f.indirect) + Blocks(t)
            && (ApartAll(f'.indirect) <==> ApartAll(f.indirect) && Apart(t) && Blocks(t) !! BlocksOf(f.indirect))
  {
    Appended(f.indirect, t);
  }

  /** One more indirect tree, of one level more than the last. */
  lemma FiledMore(a: seq<Byte>, b: seq<Byte>, c: seq<Byte>, g: Geometry, f: File, t: Tree)
    requires Filed(a, b, g, f) && TreePlanted(b, c, g, t, |f.indirect| + 1, f.data, |f.DataBlocks()|)
    ensures Filed(a, c, g, f.(indirect := f.indirect + [t]))
    ensures f.(indirect := f.indirect + [t]).DataBlocks() == f.DataBlocks() + Leaves(t)
  {
    FiledMeans(a, b, g, f);
    GrownThen(a, b, c, g, f.AllBlocks(), Blocks(t));
    FiledKept(a, b, c, g, f, Blocks(t));
    MoreIndirect(f, t);
    JoinFiled(a, c, g, f, t);
  }

  lemma MoreLevels(c: seq<Byte>, ts: seq<Tree>, t: Tree)
    requires StoredByLevel(c, ts) && Stored(c, t, |ts| + 1)
    ensures StoredByLevel(c, ts + [t])
  {
  }

  lemma JoinFiled(a: seq<Byte>, c: seq<Byte>, g: Geometry, f: File, t: Tree)
    requires Grown(a, c, g, f.AllBlocks() + Blocks(t)) && f.AllBlocks() !! Blocks(t)
    requires ApartAll(f.direct) && ApartAll(f.indirect) && BlocksOf(f.direct) !! BlocksOf(f.indirect) && Apart(t)
    requires StoredAll(c, f.direct, 0) && StoredByLevel(c, f.indirect) && Stored(c, t, |f.indirect| + 1)
    requires HoldChunks(c, f.DataBlocks(), f.data, 0) && HoldChunks(c, Leaves(t), f.data, |f.DataBlocks()|)
    ensures Filed(a, c, g, f.(indirect := f.indirect + [t]))
  {
    MoreIndirect(f, t);
    MoreLevels(c, f.indirect, t);
    HoldMore(c, f.DataBlocks(), Leaves(t), f.data, 0, |f.DataBlocks()|);
    assert FiledBody(a, c, g, f.(indirect := f.indirect + [t]));
  }

  lemma FiledKept(a: seq<Byte>, b: seq<Byte>, c: seq<Byte>, g: Geometry, f: File, taken: set<nat>)
    requires FiledBody(a, b, g, f) && Grown(b, c, g, taken) && f.AllBlocks() !! taken
    ensures StoredAll(c, f.direct, 0) && StoredByLevel(c, f.indirect) && HoldChunks(c, f.DataBlocks(), f.data, 0)
  {
    GrownMeans(a, b, g, f.AllBlocks());
    TreesKept(b, c, g, taken, f.direct, 0);
    LevelsKept(b, c, g, taken, f.indirect);
    forall x | x in f.DataBlocks()
      ensures x in f.AllBlocks()
    {
      DataBlocksAreBlocks(f, x);
    }
    ChunksKept(b, c, g, taken, f.DataBlocks(), f.data, 0);
  }

  lemma LevelsKept(b: seq<Byte>, c: seq<Byte>, g: Geometry, taken: set<nat>, ts: seq<Tree>)
    requires Grown(b, c, g, taken) && StoredByLevel(b, ts)
    requires forall x :: x in BlocksOf(ts) ==> g.IsData(x) && x !in taken
    ensures StoredByLevel(c, ts)
  {
    GrownMeans(b, c, g, taken);
    forall i | 0 <= i < |ts|
      ensures Stored(c, ts[i], i + 1)
    {
      forall x | x in Blocks(ts[i])
        ensures x in BlocksOf(ts)
      {
        EachInBlocksOf(ts, i, x);
      }
      StoredKept(b, c, ts[i], i + 1);
    }
  }

  lemma Capacities()
    ensures Capacity(1) == 256 && Capacity(2) == 65536 && Capacity(3) == 16777216
  {
    assert Capacity(0) == 1;
  }

  /** How many blocks it takes to store `n` data blocks from a level on. */
  function LevelsBlocks(level: nat, n: nat): nat
    requires 1 <= level <= 4
    decreases 4 - level
  {
    if n == 0 || level == 4 then 0
    else TreeBlocks(level, Min(Capacity(level), n)) + LevelsBlocks(level + 1, n - Min(Capacity(level), n))
  }

  /** How many blocks a file of `n` data blocks takes, index blocks included. */
  function FileBlocks(n: nat): nat {
    Min(DIRECT_BLOCKS, n) + LevelsBlocks(1, n - Min(DIRECT_BLOCKS, n))
  }

  /** One of the three steps of write_file behind the direct blocks. */
  method WriteLevel(m: Mkfs, data: seq<Byte>, level: nat, next: nat, rest: nat, pointers: seq<nat>,
                    ghost before: seq<Byte>, ghost f: File)
    returns (ok: bool, next': nat, rest': nat, pointers': seq<nat>, ghost f': File)
    requires m.Synced() && Filed(before, m.img.bytes, m.g, f) && f.data == data
    requires 1 <= level <= 3 && |f.indirect| == level - 1 && |f.direct| <= DIRECT_BLOCKS
    requires pointers == Pointers(f.direct, f.indirect)
    requires next == |f.DataBlocks()| && rest == Remaining(data, next) && rest > 0
    modifies m`super, m.img`pos, m.img`bytes
    ensures f'.data == data && f'.direct == f.direct && f'.ino == f.ino
    ensures ok <==> TreeBlocks(level, Wanted(data, next, Capacity(level))) <= old(DescOf(m.img.bytes, 0)).freeBlocks
    ensures ok ==>
      DescOf(m.img.bytes, 0).freeBlocks + TreeBlocks(level, Wanted(data, next, Capacity(level)))
        == old(DescOf(m.img.bytes, 0)).freeBlocks
    ensures ok ==>
      && m.Synced() && Filed(before, m.img.bytes, m.g, f') && |f'.indirect| == level
      && pointers' == Pointers(f'.direct, f'.indirect)
      && next' == |f'.DataBlocks()| == next + Wanted(data, next, Capacity(level)) && rest' == Remaining(data, next')
  {
    ghost var b := m.img.bytes;
    var root;
    ghost var t;
    f', pointers' := f, pointers;
    ok, root, next', rest', t := WriteIndirect(m, data, next, rest, level);
    if ok {
      FiledMore(before, b, m.img.bytes, m.g, f, t);
      pointers' := pointers[DIRECT_BLOCKS + level - 1 := root];
      MorePointers(f.direct, f.indirect, t);
      f' := f.(indirect := f.indirect + [t]);
    }
  }

  lemma MorePointers(direct: seq<Tree>, indirect: seq<Tree>, t: Tree)
    requires |direct| <= DIRECT_BLOCKS && |indirect| < 3
    ensures Pointers(direct, indirect + [t]) == Pointers(direct, indirect)[DIRECT_BLOCKS + |indirect| := t.block]
  {
    Appended(indirect, t);
  }

  /** The data part of write_file: direct blocks, then as many levels as it takes. */
  method WriteData(m: Mkfs, data: seq<Byte>, ghost ino: nat) returns (ok: bool, pointers: seq<nat>, ghost f: File)
    requires m.Synced() && |data| < WORD
    modifies m`super, m.img`pos, m.img`bytes
    ensures f.data == data && f.ino == ino
    ensures ok <==> FileBlocks(BlocksFor(|data|)) <= old(DescOf(m.img.bytes, 0)).freeBlocks
    ensures ok ==>
      DescOf(m.img.bytes, 0).freeBlocks + FileBlocks(BlocksFor(|data|)) == old(DescOf(m.img.bytes, 0)).freeBlocks
    ensures ok ==>
      && m.Synced() && Filed(old(m.img.bytes), m.img.bytes, m.g, f) && pointers == Pointers(f.direct, f.indirect)
      && |f.DataBlocks()| == BlocksFor(|data|) && |pointers| == INODE_BLOCKS && DirectFirst(f)
  {
    ghost var a := m.img.bytes;
    var blocks, rest;
    ghost var direct;
    ok, blocks, rest, direct := WriteBlocks(m, data, 0, |data|, DIRECT_BLOCKS);
    f := File(ino, data, direct, []);
    pointers := [];
    if ok {
      FiledDirect(a, m.img.bytes, m.g, f);
      pointers := Padded(blocks, DIRECT_BLOCKS) + NoPointers(3);
      assert f.DataBlocks() == LeavesOf(direct);
      assert Left(data, |blocks|) == BlocksFor(|data|) - Min(DIRECT_BLOCKS, BlocksFor(|data|));
      ok, pointers, f := WriteLevels(m, data, 1, |blocks|, rest, pointers, a, f);
    }
  }

  /** The indirect levels from `level` on, each only if data remain. */
  method WriteLevels(m: Mkfs, data: seq<Byte>, level: nat, next0: nat, rest0: nat, pointers0: seq<nat>,
                     ghost before: seq<Byte>, ghost f0: File)
    returns (ok: bool, pointers: seq<nat>, ghost f: File)
    requires m.Synced() && Filed(before, m.img.bytes, m.g, f0) && f0.data == data && |data| < WORD
    requires 1 <= level <= 3
    requires (rest0 > 0 ==> |f0.indirect| == level - 1) && |f0.direct| <= DIRECT_BLOCKS &&
             pointers0 == Pointers(f0.direct, f0.indirect)
    requires next0 == |f0.DataBlocks()| <= BlocksFor(|data|) && rest0 == Remaining(data, next0) &&
             |pointers0| == INODE_BLOCKS
    modifies m`super, m.img`pos, m.img`bytes
    decreases 3 - level
    ensures f.data == data && f.ino == f0.ino && f.direct == f0.direct
    ensures ok <==> LevelsBlocks(level, Left(data, next0)) <= old(DescOf(m.img.bytes, 0)).freeBlocks
    ensures ok ==>
      var free := old(DescOf(m.img.bytes, 0)).freeBlocks;
      DescOf(m.img.bytes, 0).freeBlocks + LevelsBlocks(level, Left(data, next0)) == free
    ensures ok ==>
      && m.Synced() && Filed(before, m.img.bytes, m.g, f) && pointers == Pointers(f.direct, f.indirect)
      && |f.DataBlocks()| == BlocksFor(|data|) && |pointers| == INODE_BLOCKS
  {
    ok, pointers, f := true, pointers0, f0;
    LevelLeft(data, level, next0);
    if rest0 > 0 {
      var next, rest;
      ok, next, rest, pointers, f := WriteLevel(m, data, level, next0, rest0, pointers, before, f);
      LevelLeft(data, level + 1, next);
      if ok && level < 3 {
        ok, pointers, f := WriteLevels(m, data, level + 1, next, rest, pointers, before, f);
      } else if ok {
        NothingAfter(data, next0);
      }
    }
  }

  lemma NothingAfter(data: seq<Byte>, k: nat)
    requires |data| < WORD
    ensures Left(data, k) <= Capacity(3)
  {
    Capacities();
  }

  /** How many of the file's blocks come after the first `k`. */
  function Left(data: seq<Byte>, k: nat): nat {
    if k < BlocksFor(|data|) then BlocksFor(|data|) - k else 0
  }

  /** What is left at a level is what the level takes and what is left behind it. */
  lemma LevelLeft(data: seq<Byte>, level: nat, k: nat)
    requires 1 <= level <= 4
    ensures Remaining(data, k) == 0 <==> Left(data, k) == 0
    ensures var n := Wanted(data, k, Capacity(level));
            && n == Min(Capacity(level), Left(data, k)) && Left(data, k + n) == Left(data, k) - n
            && (level < 4 && Left(data, k) > 0 ==>
                  LevelsBlocks(level, Left(data, k))
                  == TreeBlocks(level, n) + LevelsBlocks(level + 1, Left(data, k + n)))
            && (Left(data, k) == 0 ==> LevelsBlocks(level, Left(data, k)) == 0)
  {
  }
}
