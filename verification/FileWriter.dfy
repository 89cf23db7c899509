/** Writing the data of a file into blocks, with index blocks of up to three levels. */
module FileWriter {
  import opened Units
  import opened Bytes
  import opened DirectoryBlock
  import opened ImageFile
  import opened DiskFormat
  import opened Volume
  import opened FileTree
  import opened BlockGrowth
  import opened ImageWriter

  /** The bytes of a file from its `k`th block on. */
  function Remaining(data: seq<Byte>, k: nat): nat {
    if k * BLOCK_SIZE < |data| then |data| - k * BLOCK_SIZE else 0
  }

  /** How many data blocks a tree of that many levels can have. */
  function Capacity(level: nat): (c: nat)
    ensures c >= 1
  {
    if level == 0 then 1 else POINTERS * Capacity(level - 1)
  }

  /** How many blocks the file needs from the `k`th on, up to a limit. */
  function Wanted(data: seq<Byte>, k: nat, limit: nat): nat {
    if k < BlocksFor(|data|) then Min(limit, BlocksFor(|data|) - k) else 0
  }

  /** How many blocks a tree of `level` levels takes for `n` data blocks, its index blocks included. */
  function TreeBlocks(level: nat, n: nat): nat
    decreases level, n, 1
  {
    1 + BelowBlocks(level, n)
  }

  /** The same without the topmost index block. */
  function BelowBlocks(level: nat, n: nat): (b: nat)
    ensures n <= b
    decreases level, n, 0
  {
    if level <= 1 then n
    else if n == 0 then 0
    else
      var first := Min(Capacity(level - 1), n);
      TreeBlocks(level - 1, first) + BelowBlocks(level, n - first)
  }

  /** Keeps `Planted` closed: what it says is in view only where a key is stated. */
  ghost predicate PlantKey(k: int) {
    true
  }

  /** Between two images, exactly the blocks of these trees were taken, and they hold the file from block `k` on. */
  ghost predicate PlantedBody(before: seq<Byte>, after: seq<Byte>, g: Geometry, ts: seq<Tree>, level: nat,
                              data: seq<Byte>, k: nat) {
    && Grown(before, after, g, BlocksOf(ts)) && ApartAll(ts) && StoredAll(after, ts, level)
    && HoldChunks(after, LeavesOf(ts), data, k)
  }

  ghost predicate Planted(before: seq<Byte>, after: seq<Byte>, g: Geometry, ts: seq<Tree>, level: nat,
                          data: seq<Byte>, k: nat) {
    forall key {:trigger PlantKey(key)} :: PlantKey(key) ==> PlantedBody(before, after, g, ts, level, data, k)
  }

  lemma PlantedMeans(before: seq<Byte>, after: seq<Byte>, g: Geometry, ts: seq<Tree>, level: nat, data: seq<Byte>,
                     k: nat)
    requires Planted(before, after, g, ts, level, data, k)
    ensures PlantedBody(before, after, g, ts, level, data, k)
  {
    assert PlantKey(0);
  }

  lemma PlantedNothing(bytes: seq<Byte>, g: Geometry, level: nat, data: seq<Byte>, k: nat)
    requires GroupOk(bytes, g)
    ensures Planted(bytes, bytes, g, [], level, data, k)
  {
    GrownNothing(bytes, g);
    assert PlantedBody(bytes, bytes, g, [], level, data, k);
  }

  lemma Appended(ts: seq<Tree>, t: Tree)
    ensures (ts + [t])[..|ts + [t]| - 1] == ts
    ensures Roots(ts + [t]) == Roots(ts) + [t.block] && LeavesOf(ts + [t]) == LeavesOf(ts) + Leaves(t)
    ensures BlocksOf(ts + [t]) == BlocksOf(ts) + Blocks(t)
    ensures ApartAll(ts + [t]) <==> ApartAll(ts) && Apart(t) && Blocks(t) !! BlocksOf(ts)
  {
    assert (ts + [t])[..|ts + [t]| - 1] == ts;
  }

  lemma AppendedStored(bytes: seq<Byte>, ts: seq<Tree>, t: Tree, level: nat)
    requires StoredAll(bytes, ts, level) && Stored(bytes, t, level)
    ensures StoredAll(bytes, ts + [t], level)
  {
    assert (ts + [t])[..|ts + [t]| - 1] == ts;
  }

  /** One more tree, for the data behind that of the trees so far. */
  lemma PlantOne(a: seq<Byte>, b: seq<Byte>, c: seq<Byte>, g: Geometry, ts: seq<Tree>, t: Tree, level: nat,
                 data: seq<Byte>, k: nat, next: nat)
    requires Planted(a, b, g, ts, level, data, k) && Grown(b, c, g, Blocks(t))
    requires Apart(t) && Stored(c, t, level) && next == k + |LeavesOf(ts)| && HoldChunks(c, Leaves(t), data, next)
    ensures Planted(a, c, g, ts + [t], level, data, k)
  {
    PlantedMeans(a, b, g, ts, level, data, k);
    GrownThen(a, b, c, g, BlocksOf(ts), Blocks(t));
    PlantKept(a, b, c, g, Blocks(t), ts, level, data, k);
    JoinPlanted(a, c, g, ts, t, level, data, k, next);
  }

  lemma JoinPlanted(a: seq<Byte>, c: seq<Byte>, g: Geometry, ts: seq<Tree>, t: Tree, level: nat, data: seq<Byte>,
                    k: nat, next: nat)
    requires Grown(a, c, g, BlocksOf(ts) + Blocks(t)) && Blocks(t) !! BlocksOf(ts)
    requires ApartAll(ts) && StoredAll(c, ts, level) && HoldChunks(c, LeavesOf(ts), data, k)
    requires Apart(t) && Stored(c, t, level) && next == k + |LeavesOf(ts)| && HoldChunks(c, Leaves(t), data, next)
    ensures Planted(a, c, g, ts + [t], level, data, k)
  {
    Appended(ts, t);
    HoldMore(c, LeavesOf(ts), Leaves(t), data, k, next);
    AppendedStored(c, ts, t, level);
    assert PlantedBody(a, c, g, ts + [t], level, data, k);
  }

  /** Later growth keeps the trees and what they hold. */
  lemma PlantKept(a: seq<Byte>, b: seq<Byte>, c: seq<Byte>, g: Geometry, taken: set<nat>, ts: seq<Tree>, level: nat,
                  data: seq<Byte>, k: nat)
    requires PlantedBody(a, b, g, ts, level, data, k) && Grown(b, c, g, taken) && BlocksOf(ts) !! taken
    ensures StoredAll(c, ts, level) && HoldChunks(c, LeavesOf(ts), data, k)
  {
    GrownMeans(a, b, g, BlocksOf(ts));
    LeavesAreData(ts, g);
    TreesKept(b, c, g, taken, ts, level);
    ChunksKept(b, c, g, taken, LeavesOf(ts), data, k);
  }

  lemma LeavesAreData(ts: seq<Tree>, g: Geometry)
    requires forall b :: b in BlocksOf(ts) ==> g.IsData(b)
    ensures forall b :: b in LeavesOf(ts) ==> g.IsData(b) && b in BlocksOf(ts)
  {
    forall b | b in LeavesOf(ts)
      ensures b in BlocksOf(ts)
    {
      LeavesOfAreBlocks(ts, b);
    }
  }

  /** Allocating a block, writing to it and taking it: the common steps of data and index blocks. */
  method StoreNewBlock(m: Mkfs, data: seq<Byte>) returns (ok: bool, block: nat)
    requires m.Synced() && |data| <= BLOCK_SIZE
    modifies m`super, m.img`pos, m.img`bytes
    ensures ok ==> m.Synced() && Grown(old(m.img.bytes), m.img.bytes, m.g, {block})
    ensures ok ==> Slice(m.img.bytes, block * BLOCK_SIZE, |data|) == data
    ensures ok <==> old(DescOf(m.img.bytes, 0)).freeBlocks > 0
    ensures ok ==> DescOf(m.img.bytes, 0).freeBlocks + 1 == old(DescOf(m.img.bytes, 0)).freeBlocks
  {
    ghost var a := m.img.bytes;
    ok, block := m.AllocBlock();
    if ok {
      m.UpdateBlockData(block, data);
      ghost var b := m.img.bytes;
      StillFree(a, b, m.g, block);
      m.UpdateBlockBitmap(block);
      GrownByOne(a, b, m.img.bytes, m.g, block, |data|);
      m.super := m.super.(freeBlocks := m.super.freeBlocks - 1);
    }
  }

  lemma StillFree(a: seq<Byte>, b: seq<Byte>, g: Geometry, block: nat)
    requires BlockBits(b, g) == BlockBits(a, g) && !BlockUsed(a, g, block)
    ensures !BlockUsed(b, g, block)
  {
  }

  lemma OneChunk(bytes: seq<Byte>, block: nat, data: seq<Byte>, k: nat)
    requires HoldsChunk(bytes, block, data, k)
    ensures HoldChunks(bytes, [block], data, k)
  {
  }

  lemma LeafPlanted(a: seq<Byte>, b: seq<Byte>, c: seq<Byte>, g: Geometry, ts: seq<Tree>, block: nat,
                    data: seq<Byte>, k: nat, next: nat)
    requires Planted(a, b, g, ts, 0, data, k) && Grown(b, c, g, {block})
    requires next == k + |LeavesOf(ts)| && HoldsChunk(c, block, data, next)
    ensures Planted(a, c, g, ts + [Leaf(block)], 0, data, k)
    ensures Roots(ts + [Leaf(block)]) == Roots(ts) + [block]
    ensures |LeavesOf(ts + [Leaf(block)])| == |LeavesOf(ts)| + 1
  {
    var t := Leaf(block);
    assert Blocks(t) == {block} && Leaves(t) == [block];
    OneChunk(c, block, data, next);
    PlantOne(a, b, c, g, ts, t, 0, data, k, next);
    Appended(ts, t);
  }

  /** write_data_into_blocks: fills up to `capacity` pointers. */
  method WriteBlocks(m: Mkfs, data: seq<Byte>, k: nat, size: nat, capacity: nat)
    returns (ok: bool, blocks: seq<nat>, rest: nat, ghost ts: seq<Tree>)
    requires m.Synced() && size == Remaining(data, k)
    modifies m`super, m.img`pos, m.img`bytes
    ensures ok ==> m.Synced() && Planted(old(m.img.bytes), m.img.bytes, m.g, ts, 0, data, k)
    ensures ok ==> blocks == Roots(ts) && |LeavesOf(ts)| == |blocks| == Wanted(data, k, capacity)
    ensures rest == Remaining(data, k + |blocks|)
    ensures ok <==> Wanted(data, k, capacity) <= old(DescOf(m.img.bytes, 0)).freeBlocks
    ensures ok ==> DescOf(m.img.bytes, 0).freeBlocks + |blocks| == old(DescOf(m.img.bytes, 0)).freeBlocks
  {
    ghost var a, free := m.img.bytes, DescOf(m.img.bytes, 0).freeBlocks;
    ok, blocks, ts := true, [], [];
    rest := size;
    PlantedNothing(m.img.bytes, m.g, 0, data, k);
    while |blocks| < capacity && rest > 0 && ok
      invariant rest == Remaining(data, k + |blocks|) && |blocks| <= Wanted(data, k, capacity)
      invariant ok ==> m.Synced() && Planted(a, m.img.bytes, m.g, ts, 0, data, k)
      invariant ok ==> blocks == Roots(ts) && |LeavesOf(ts)| == |blocks|
      invariant if ok then DescOf(m.img.bytes, 0).freeBlocks + |blocks| == free else free < Wanted(data, k, capacity)
      decreases rest, ok
    {
      ghost var b := m.img.bytes;
      var next := k + |blocks|;
      var block, blockSize;
      ok, block, blockSize := WriteChunk(m, data, next, rest);
      WantedMore(data, k, |blocks|, capacity);
      if ok {
        LeafPlanted(a, b, m.img.bytes, m.g, ts, block, data, k, next);
        ts := ts + [Leaf(block)];
        blocks := blocks + [block];
        rest := rest - blockSize;
      }
    }
    WantedDone(data, k, |blocks|, capacity);
  }

  /** One round of write_data_into_blocks. */
  method WriteChunk(m: Mkfs, data: seq<Byte>, k: nat, size: nat) returns (ok: bool, block: nat, blockSize: nat)
    requires m.Synced() && size == Remaining(data, k) && size > 0
    modifies m`super, m.img`pos, m.img`bytes
    ensures ok ==>
      && m.Synced() && Grown(old(m.img.bytes), m.img.bytes, m.g, {block}) && HoldsChunk(m.img.bytes, block, data, k)
    ensures 0 < blockSize <= size && size - blockSize == Remaining(data, k + 1)
    ensures ok <==> old(DescOf(m.img.bytes, 0)).freeBlocks > 0
    ensures ok ==> DescOf(m.img.bytes, 0).freeBlocks + 1 == old(DescOf(m.img.bytes, 0)).freeBlocks
  {
    ChunkSize(data, k);
    blockSize := if size > BLOCK_SIZE then BLOCK_SIZE else size;
    ok, block := StoreNewBlock(m, Chunk(data, k));
  }

  lemma WantedMore(data: seq<Byte>, k: nat, n: nat, capacity: nat)
    requires n < capacity && Remaining(data, k + n) > 0
    ensures n + 1 <= Wanted(data, k, capacity)
  {
    ChunkSize(data, k + n);
  }

  lemma WantedDone(data: seq<Byte>, k: nat, n: nat, capacity: nat)
    requires n <= Wanted(data, k, capacity)
    ensures n >= capacity || Remaining(data, k + n) == 0 ==> n == Wanted(data, k, capacity)
  {
  }

  /** What is left of the file shrinks by the chunk that is read. */
  lemma ChunkSize(data: seq<Byte>, k: nat)
    requires Remaining(data, k) > 0
    ensures k < BlocksFor(|data|) && |Chunk(data, k)| == Min(BLOCK_SIZE, Remaining(data, k))
    ensures Remaining(data, k + 1) == Remaining(data, k) - |Chunk(data, k)|
  {
  }

  // ----- index blocks

  /** A tree just planted, which holds as much of the file from block `k` on as it has room for. */
  ghost predicate TreePlanted(before: seq<Byte>, after: seq<Byte>, g: Geometry, t: Tree, level: nat, data: seq<Byte>,
                              k: nat) {
    && Grown(before, after, g, Blocks(t)) && Apart(t) && Stored(after, t, level)
    && HoldChunks(after, Leaves(t), data, k) && |Leaves(t)| == Wanted(data, k, Capacity(level))
  }

  /** Filling in the index block in front of its trees. */
  lemma IndexPlanted(a: seq<Byte>, b: seq<Byte>, c: seq<Byte>, d: seq<Byte>, g: Geometry, root: nat, kids: seq<Tree>,
                     level: nat, data: seq<Byte>, k: nat)
    requires Grown(a, b, g, {root}) && Planted(b, c, g, kids, level, data, k) && |kids| <= POINTERS
    requires OnlyRange(c, d, root * BLOCK_SIZE, BLOCK_SIZE) && BlockAt(d, root) == IndexBytes(Roots(kids))
    ensures Grown(a, d, g, Blocks(Node(root, kids))) && Apart(Node(root, kids)) &&
            Stored(d, Node(root, kids), level + 1)
    ensures HoldChunks(d, Leaves(Node(root, kids)), data, k)
  {
    PlantedMeans(b, c, g, kids, level, data, k);
    GrownThen(a, b, c, g, {root}, BlocksOf(kids));
    GrownWrite(a, c, d, g, {root} + BlocksOf(kids), root, BLOCK_SIZE);
    GrownMeans(b, c, g, BlocksOf(kids));
    IndexKeeps(c, d, g, root, kids, level, data, k);
  }

  lemma IndexKeeps(c: seq<Byte>, d: seq<Byte>, g: Geometry, root: nat, kids: seq<Tree>, level: nat, data: seq<Byte>,
                   k: nat)
    requires GroupOk(c, g) && OnlyRange(c, d, root * BLOCK_SIZE, BLOCK_SIZE) && root !in BlocksOf(kids)
    requires StoredAll(c, kids, level) && HoldChunks(c, LeavesOf(kids), data, k)
    requires forall b :: b in BlocksOf(kids) ==> g.IsData(b)
    ensures StoredAll(d, kids, level) && HoldChunks(d, LeavesOf(kids), data, k)
  {
    forall b | b in BlocksOf(kids)
      ensures BlockAt(d, b) == BlockAt(c, b)
    {
      OtherBlock(c, d, root, BLOCK_SIZE, b);
    }
    StoredAllKept(c, d, kids, level);
    LeavesAreData(kids, g);
    forall i | 0 <= i < |LeavesOf(kids)|
      ensures HoldsChunk(d, LeavesOf(kids)[i], data, k + i)
    {
      assert LeavesOf(kids)[i] in LeavesOf(kids) && HoldsChunk(c, LeavesOf(kids)[i], data, k + i);
      DataIsNumbered(c, g, LeavesOf(kids)[i]);
      ChunkKept(c, d, LeavesOf(kids)[i], data, k + i);
    }
  }

  /** The pointers to trees of blocks of the group are words other than zero. */
  lemma PointersAreWords(bytes: seq<Byte>, g: Geometry, ts: seq<Tree>)
    requires GroupOk(bytes, g) && forall b :: b in BlocksOf(ts) ==> g.IsData(b)
    ensures Numbered(BlocksOf(ts)) && forall i :: 0 <= i < |ts| ==> 0 < Roots(ts)[i] < WORD
  {
    forall b | b in BlocksOf(ts)
      ensures 0 < b < WORD
    {
      DataIsNumbered(bytes, g, b);
    }
    RootsNumbered(ts);
  }

  /**
   write_data_into_1_indirect_blocks, and its counterparts for two and three levels, which differ
   in what they write below the index block.
   */
  method WriteIndirect(m: Mkfs, data: seq<Byte>, k: nat, size: nat, level: nat)
    returns (ok: bool, root: nat, next: nat, rest: nat, ghost t: Tree)
    requires m.Synced() && size == Remaining(data, k) && size > 0 && level >= 1
    modifies m`super, m.img`pos, m.img`bytes
    ensures ok ==> m.Synced() && TreePlanted(old(m.img.bytes), m.img.bytes, m.g, t, level, data, k)
    ensures ok ==> t.block == root && next == k + |Leaves(t)| && rest == Remaining(data, next)
    ensures ok <==> TreeBlocks(level, Wanted(data, k, Capacity(level))) <= old(DescOf(m.img.bytes, 0)).freeBlocks
    ensures ok ==>
      DescOf(m.img.bytes, 0).freeBlocks + TreeBlocks(level, Wanted(data, k, Capacity(level)))
        == old(DescOf(m.img.bytes, 0)).freeBlocks
    decreases level, 0
  {
    next, rest, t := k, size, Leaf(0);
    ok, root := StoreNewBlock(m, Zeros(BLOCK_SIZE));
    if ok {
      ghost var b := m.img.bytes;
      var blocks;
      ghost var kids;
      ok, blocks, next, rest, kids := WriteBelow(m, data, k, size, level);
      if ok {
        WriteIndex(m, root, blocks, kids, old(m.img.bytes), b, level - 1, data, k);
        t := Node(root, kids);
      }
    }
  }

  /** The pointers below an index block. */
  method WriteBelow(m: Mkfs, data: seq<Byte>, k: nat, size: nat, level: nat)
    returns (ok: bool, blocks: seq<nat>, next: nat, rest: nat, ghost kids: seq<Tree>)
    requires m.Synced() && size == Remaining(data, k) && size > 0 && level >= 1
    modifies m`super, m.img`pos, m.img`bytes
    ensures ok ==> m.Synced() && Planted(old(m.img.bytes), m.img.bytes, m.g, kids, level - 1, data, k)
    ensures ok ==> blocks == Roots(kids) && |blocks| <= POINTERS && |LeavesOf(kids)| == Wanted(data, k, Capacity(level))
    ensures ok ==> next == k + |LeavesOf(kids)| && rest == Remaining(data, next)
    ensures ok <==> BelowBlocks(level, Wanted(data, k, Capacity(level))) <= old(DescOf(m.img.bytes, 0)).freeBlocks
    ensures ok ==>
      DescOf(m.img.bytes, 0).freeBlocks + BelowBlocks(level, Wanted(data, k, Capacity(level)))
        == old(DescOf(m.img.bytes, 0)).freeBlocks
    decreases level - 1, 3
  {
    if level == 1 {
      assert Capacity(1) == POINTERS * Capacity(0) == POINTERS;
      ok, blocks, rest, kids := WriteBlocks(m, data, k, size, POINTERS);
      next := k + |blocks|;
    } else {
      ok, blocks, next, rest, kids := WriteSubtrees(m, data, k, size, level);
    }
  }

  /** The subtrees written so far, their pointers, and where the file goes on. */
  ghost predicate Subtrees(before: seq<Byte>, after: seq<Byte>, g: Geometry, kids: seq<Tree>, blocks: seq<nat>,
                           level: nat, data: seq<Byte>, k: nat, next: nat, rest: nat) {
    forall key {:trigger SubtreesKey(key)} :: SubtreesKey(key) ==>
      && Planted(before, after, g, kids, level, data, k) && blocks == Roots(kids)
      && next == k + |LeavesOf(kids)| && rest == Remaining(data, next)
      && |LeavesOf(kids)| == Wanted(data, k, Times(Capacity(level), |blocks|))
  }

  /** Keeps `Subtrees` closed: what it says is in view only where a key is stated. */
  ghost predicate SubtreesKey(k: int) {
    true
  }

  lemma NoSubtrees(bytes: seq<Byte>, g: Geometry, level: nat, data: seq<Byte>, k: nat)
    requires GroupOk(bytes, g)
    ensures Subtrees(bytes, bytes, g, [], [], level, data, k, k, Remaining(data, k))
  {
    PlantedNothing(bytes, g, level, data, k);
  }

  lemma MoreSubtrees(a: seq<Byte>, b: seq<Byte>, c: seq<Byte>, g: Geometry, kids: seq<Tree>, blocks: seq<nat>, t: Tree,
                     level: nat, data: seq<Byte>, k: nat, next: nat, rest: nat, next': nat, rest': nat)
    requires Subtrees(a, b, g, kids, blocks, level, data, k, next, rest) && rest > 0
    requires TreePlanted(b, c, g, t, level, data, next) && next' == next + |Leaves(t)| &&
             rest' == Remaining(data, next')
    ensures Subtrees(a, c, g, kids + [t], blocks + [t.block], level, data, k, next', rest')
  {
    assert SubtreesKey(0);
    SubtreePlanted(a, b, c, g, kids, t, level, data, k, next);
    WantedSum(data, k, Capacity(level), |blocks|, |LeavesOf(kids)|, next);
    Appended(kids, t);
  }

  /** When the pointers or the file are used up, the subtrees hold what an index block wants. */
  lemma SubtreesDone(a: seq<Byte>, b: seq<Byte>, g: Geometry, kids: seq<Tree>, blocks: seq<nat>,
                     level: nat, data: seq<Byte>, k: nat, next: nat, rest: nat)
    requires Subtrees(a, b, g, kids, blocks, level, data, k, next, rest)
    requires |blocks| == POINTERS || (rest == 0 && |blocks| <= POINTERS)
    ensures Planted(a, b, g, kids, level, data, k) && blocks == Roots(kids)
    ensures next == k + |LeavesOf(kids)| && rest == Remaining(data, next)
    ensures |LeavesOf(kids)| == Wanted(data, k, Capacity(level + 1))
  {
    assert SubtreesKey(0);
    AllWanted(data, k, level + 1, |blocks|);
  }

  lemma SubtreesRest(a: seq<Byte>, b: seq<Byte>, g: Geometry, kids: seq<Tree>, blocks: seq<nat>,
                     level: nat, data: seq<Byte>, k: nat, next: nat, rest: nat)
    requires Subtrees(a, b, g, kids, blocks, level, data, k, next, rest)
    ensures rest == Remaining(data, next)
  {
    assert SubtreesKey(0);
  }

  /** The loop of write_data_into_2_indirect_blocks and write_data_into_3_indirect_blocks. */
  method WriteSubtrees(m: Mkfs, data: seq<Byte>, k: nat, size: nat, level: nat)
    returns (ok: bool, blocks: seq<nat>, next: nat, rest: nat, ghost kids: seq<Tree>)
    requires m.Synced() && size == Remaining(data, k) && size > 0 && level >= 2
    modifies m`super, m.img`pos, m.img`bytes
    ensures ok ==> m.Synced() && Planted(old(m.img.bytes), m.img.bytes, m.g, kids, level - 1, data, k)
    ensures ok ==> blocks == Roots(kids) && |blocks| <= POINTERS && |LeavesOf(kids)| == Wanted(data, k, Capacity(level))
    ensures ok ==> next == k + |LeavesOf(kids)| && rest == Remaining(data, next)
    ensures ok <==> BelowBlocks(level, Wanted(data, k, Capacity(level))) <= old(DescOf(m.img.bytes, 0)).freeBlocks
    ensures ok ==>
      DescOf(m.img.bytes, 0).freeBlocks + BelowBlocks(level, Wanted(data, k, Capacity(level)))
        == old(DescOf(m.img.bytes, 0)).freeBlocks
    decreases level - 1, 2
  {
    ghost var a := m.img.bytes;
    ghost var free: nat, all: nat, done: nat := DescOf(a, 0).freeBlocks, Wanted(data, k, Capacity(level)), 0;
    ok, blocks, next, rest, kids := true, [], k, size, [];
    NoSubtrees(m.img.bytes, m.g, level - 1, data, k);
    assert SpentBody(level, all, 0, free, free);
    while |blocks| < POINTERS && rest > 0 && ok
      invariant |blocks| <= POINTERS
      invariant ok ==> m.Synced() && Subtrees(a, m.img.bytes, m.g, kids, blocks, level - 1, data, k, next, rest)
      invariant if ok then next == k + done && Spent(level, all, done, free, DescOf(m.img.bytes, 0).freeBlocks)
                else free < BelowBlocks(level, all)
      decreases POINTERS - |blocks|, ok
    {
      ok, blocks, next, rest, kids, done := NextSubtree(m, data, k, level, blocks, next, rest, a, kids, all, done,
                                                        free);
    }
    if ok {
      SubtreesDone(a, m.img.bytes, m.g, kids, blocks, level - 1, data, k, next, rest);
      SpentAll(level, all, free, DescOf(m.img.bytes, 0).freeBlocks);
    }
  }

  /** One round of that loop. */
  method NextSubtree(m: Mkfs, data: seq<Byte>, k: nat, level: nat, blocks: seq<nat>, next: nat, rest: nat,
                     ghost a: seq<Byte>, ghost kids: seq<Tree>, ghost all: nat, ghost done: nat, ghost free: nat)
    returns (ok: bool, blocks': seq<nat>, next': nat, rest': nat, ghost kids': seq<Tree>, ghost done': nat)
    requires m.Synced() && level >= 2 && |blocks| < POINTERS && rest > 0 && all == Wanted(data, k, Capacity(level))
    requires Subtrees(a, m.img.bytes, m.g, kids, blocks, level - 1, data, k, next, rest)
    requires next == k + done && Spent(level, all, done, free, DescOf(m.img.bytes, 0).freeBlocks)
    modifies m`super, m.img`pos, m.img`bytes
    ensures ok ==> m.Synced() && Subtrees(a, m.img.bytes, m.g, kids', blocks', level - 1, data, k, next', rest')
    ensures |blocks'| == |blocks| + (if ok then 1 else 0)
    ensures if ok then next' == k + done' && Spent(level, all, done', free, DescOf(m.img.bytes, 0).freeBlocks)
            else free < BelowBlocks(level, all)
    decreases level - 1, 1
  {
    ghost var b := m.img.bytes;
    ghost var n := Wanted(data, next, Capacity(level - 1));
    blocks', kids', done' := blocks, kids, done + n;
    SubtreesRest(a, b, m.g, kids, blocks, level - 1, data, k, next, rest);
    NextWanted(a, b, m.g, kids, blocks, level, data, k, next, rest, all, done, free, DescOf(b, 0).freeBlocks);
    var root;
    ghost var t;
    ok, root, next', rest', t := WriteIndirect(m, data, next, rest, level - 1);
    if ok {
      MoreSubtrees(a, b, m.img.bytes, m.g, kids, blocks, t, level - 1, data, k, next, rest, next', rest');
      blocks', kids' := blocks + [root], kids + [t];
    }
  }

  /** Keeps `Spent` closed: what it says is in view only where a key is stated. */
  ghost predicate SpentKey(k: int) {
    true
  }

  /** Of `free` blocks, `now` are left when `done` of `all` data blocks have been written below an index block. */
  ghost predicate SpentBody(level: nat, all: nat, done: nat, free: nat, now: nat) {
    done <= all && now + BelowBlocks(level, all) == free + BelowBlocks(level, all - done)
  }

  ghost predicate Spent(level: nat, all: nat, done: nat, free: nat, now: nat) {
    forall key {:trigger SpentKey(key)} :: SpentKey(key) ==> SpentBody(level, all, done, free, now)
  }

  lemma SpentAll(level: nat, all: nat, free: nat, now: nat)
    requires Spent(level, all, all, free, now)
    ensures now + BelowBlocks(level, all) == free
  {
    assert SpentKey(0);
    assert BelowBlocks(level, 0) == 0;
  }

  /** What the next subtree takes is the first part of what is left to take. */
  lemma NextWanted(a: seq<Byte>, b: seq<Byte>, g: Geometry, kids: seq<Tree>, blocks: seq<nat>, level: nat,
                   data: seq<Byte>, k: nat, next: nat, rest: nat, all: nat, done: nat, free: nat, now: nat)
    requires level >= 2 && Subtrees(a, b, g, kids, blocks, level - 1, data, k, next, rest) && |blocks| < POINTERS &&
             rest > 0
    requires all == Wanted(data, k, Capacity(level)) && next == k + done && Spent(level, all, done, free, now)
    ensures var n := Wanted(data, next, Capacity(level - 1));
            && (TreeBlocks(level - 1, n) <= now ==> Spent(level, all, done + n, free, now - TreeBlocks(level - 1, n)))
            && (TreeBlocks(level - 1, n) > now ==> free < BelowBlocks(level, all))
  {
    assert SubtreesKey(0);
    assert SpentKey(0);
    var n := Wanted(data, next, Capacity(level - 1));
    NextPart(data, k, level, |blocks|, done, next);
    SpentMore(level, all, done, n, free, now);
  }

  lemma SpentMore(level: nat, all: nat, done: nat, n: nat, free: nat, now: nat)
    requires level >= 2 && SpentBody(level, all, done, free, now) && done + n <= all
    requires n == Min(Capacity(level - 1), all - done) && n > 0
    ensures TreeBlocks(level - 1, n) <= now ==> Spent(level, all, done + n, free, now - TreeBlocks(level - 1, n))
    ensures TreeBlocks(level - 1, n) > now ==> free < BelowBlocks(level, all)
  {
    var more := TreeBlocks(level - 1, n);
    assert BelowBlocks(level, all - done) == more + BelowBlocks(level, all - (done + n));
    assert more <= now ==> SpentBody(level, all, done + n, free, now - more);
  }

  lemma NextPart(data: seq<Byte>, k: nat, level: nat, trees: nat, done: nat, next: nat)
    requires level >= 2 && trees < POINTERS && done == Wanted(data, k, Times(Capacity(level - 1), trees)) &&
             next == k + done
    requires Remaining(data, next) > 0
    ensures var all, n := Wanted(data, k, Capacity(level)), Wanted(data, next, Capacity(level - 1));
            done + n <= all && n == Min(Capacity(level - 1), all - done) && n > 0
  {
    var c := Capacity(level - 1);
    WantedSum(data, k, c, trees, done, next);
    TimesProduct(c, POINTERS);
    TimesMonotone(c, trees + 1, POINTERS);
    ChunkSize(data, next);
  }

  /** Stores the pointers of an index block whose trees are planted. */
  method WriteIndex(m: Mkfs, root: nat, blocks: seq<nat>, ghost kids: seq<Tree>, ghost a: seq<Byte>, ghost b: seq<Byte>,
                    ghost level: nat, ghost data: seq<Byte>, ghost k: nat)
    requires m.Synced() && Grown(a, b, m.g, {root}) && Planted(b, m.img.bytes, m.g, kids, level, data, k)
    requires blocks == Roots(kids) && |blocks| <= POINTERS
    modifies m.img`pos, m.img`bytes
    ensures m.Synced() && DescOf(m.img.bytes, 0) == old(DescOf(m.img.bytes, 0))
    ensures Grown(a, m.img.bytes, m.g, Blocks(Node(root, kids))) && Apart(Node(root, kids))
    ensures Stored(m.img.bytes, Node(root, kids), level + 1)
    ensures HoldChunks(m.img.bytes, Leaves(Node(root, kids)), data, k)
  {
    ghost var c := m.img.bytes;
    PlantedMeans(b, c, m.g, kids, level, data, k);
    GrownMeans(b, c, m.g, BlocksOf(kids));
    GrownMeans(a, b, m.g, {root});
    PointersAreWords(c, m.g, kids);
    assert m.g.IsData(root);
    PaddedWords(blocks);
    m.UpdateBlockData(root, EncodeWords(Padded(blocks, POINTERS)));
    WholeBlock(m.img.bytes, root);
    IndexPlanted(a, b, c, m.img.bytes, m.g, root, kids, level, data, k);
  }

  lemma PaddedWords(ws: seq<nat>)
    requires |ws| <= POINTERS && forall i :: 0 <= i < |ws| ==> ws[i] < WORD
    ensures forall i :: 0 <= i < POINTERS ==> Padded(ws, POINTERS)[i] < WORD
    ensures IndexBytes(ws) == EncodeWords(Padded(ws, POINTERS))
  {
  }

  lemma WholeBlock(bytes: seq<Byte>, block: nat)
    ensures Slice(bytes, block * BLOCK_SIZE, BLOCK_SIZE) == BlockAt(bytes, block)
  {
  }

  /** One more subtree. */
  lemma SubtreePlanted(a: seq<Byte>, b: seq<Byte>, c: seq<Byte>, g: Geometry, kids: seq<Tree>, t: Tree, level: nat,
                       data: seq<Byte>, k: nat, next: nat)
    requires Planted(a, b, g, kids, level, data, k) && next == k + |LeavesOf(kids)| &&
             TreePlanted(b, c, g, t, level, data, next)
    ensures Planted(a, c, g, kids + [t], level, data, k)
    ensures Roots(kids + [t]) == Roots(kids) + [t.block]
    ensures |LeavesOf(kids + [t])| == |LeavesOf(kids)| + Wanted(data, next, Capacity(level))
  {
    PlantOne(a, b, c, g, kids, t, level, data, k, next);
    Appended(kids, t);
  }

  // ----- how much fits

  function Times(c: nat, n: nat): nat {
    if n == 0 then 0 else c + Times(c, n - 1)
  }

  lemma {:induction false} TimesProduct(c: nat, n: nat)
    ensures Times(c, n) == n * c
  {
    if n > 0 {
      TimesProduct(c, n - 1);
      assert n * c == (n - 1) * c + c;
    }
  }

  lemma {:induction false} TimesMonotone(c: nat, m: nat, n: nat)
    requires m <= n
    ensures Times(c, m) <= Times(c, n)
    decreases n
  {
    if m < n {
      TimesMonotone(c, m, n - 1);
    }
  }

  /** While the file has more, `n` trees are full, and one more adds what it wants. */
  lemma WantedSum(data: seq<Byte>, k: nat, c: nat, n: nat, written: nat, next: nat)
    requires written == Wanted(data, k, Times(c, n)) && next == k + written && Remaining(data, next) > 0
    ensures written + Wanted(data, next, c) == Wanted(data, k, Times(c, n + 1))
  {
    ChunkSize(data, next);
  }

  lemma AllWanted(data: seq<Byte>, k: nat, level: nat, n: nat)
    requires level >= 1 && n <= POINTERS
    ensures n == POINTERS || Remaining(data, k + Wanted(data, k, Times(Capacity(level - 1), n))) == 0 ==>
              Wanted(data, k, Times(Capacity(level - 1), n)) == Wanted(data, k, Capacity(level))
  {
    TimesProduct(Capacity(level - 1), POINTERS);
    TimesMonotone(Capacity(level - 1), n, POINTERS);
  }
}
