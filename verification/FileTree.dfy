/** The tree of index and data blocks behind a file, and what it says of the file's bytes. */
module FileTree {
  import opened Bytes
  import opened DirectoryBlock
  import opened ImageFile
  import opened DiskFormat

  /** A data block, or an index block with the trees it points at. */
  datatype Tree = Leaf(block: nat) | Node(block: nat, kids: seq<Tree>)

  /** Every block of the tree, index blocks included. */
  ghost function Blocks(t: Tree): set<nat>
    decreases t
  {
    match t
    case Leaf(block) => {block}
    case Node(block, kids) => {block} + BlocksOf(kids)
  }

  ghost function BlocksOf(ts: seq<Tree>): set<nat>
    decreases ts
  {
    if ts == [] then {} else BlocksOf(ts[..|ts| - 1]) + Blocks(ts[|ts| - 1])
  }

  /** The data blocks, in order. */
  ghost function Leaves(t: Tree): seq<nat>
    decreases t
  {
    match t
    case Leaf(block) => [block]
    case Node(block, kids) => LeavesOf(kids)
  }

  ghost function LeavesOf(ts: seq<Tree>): seq<nat>
    decreases ts
  {
    if ts == [] then [] else LeavesOf(ts[..|ts| - 1]) + Leaves(ts[|ts| - 1])
  }

  ghost function Roots(ts: seq<Tree>): (rs: seq<nat>)
    ensures |rs| == |ts|
  {
    if ts == [] then [] else Roots(ts[..|ts| - 1]) + [ts[|ts| - 1].block]
  }

  /** No block occurs twice. */
  ghost predicate Apart(t: Tree)
    decreases t
  {
    match t
    case Leaf(block) => true
    case Node(block, kids) => block !in BlocksOf(kids) && ApartAll(kids)
  }

  ghost predicate ApartAll(ts: seq<Tree>)
    decreases ts
  {
    ts == [] || (ApartAll(ts[..|ts| - 1]) && Apart(ts[|ts| - 1]) && Blocks(ts[|ts| - 1]) !! BlocksOf(ts[..|ts| - 1]))
  }

  /** Pointers followed by zeros to a fixed number. */
  function Padded(ws: seq<nat>, n: nat): (r: seq<nat>)
    requires |ws| <= n
    ensures |r| == n
  {
    ws + NoPointers(n - |ws|)
  }

  /** The index blocks of the image are those of the tree, which has the given number of levels. */
  ghost predicate Stored(bytes: seq<Byte>, t: Tree, level: nat)
    decreases t
  {
    match t
    case Leaf(block) => level == 0
    case Node(block, kids) =>
      && level > 0 && |kids| <= POINTERS
      && BlockAt(bytes, block) == IndexBytes(Roots(kids)) && StoredAll(bytes, kids, level - 1)
  }

  ghost predicate StoredAll(bytes: seq<Byte>, ts: seq<Tree>, level: nat)
    decreases ts
  {
    ts == [] || (StoredAll(bytes, ts[..|ts| - 1], level) && Stored(bytes, ts[|ts| - 1], level))
  }

  /** The bytes of an index block with these pointers; nothing if a pointer is no word. */
  ghost function IndexBytes(ws: seq<nat>): seq<Byte> {
    if |ws| <= POINTERS && forall i :: 0 <= i < |ws| ==> ws[i] < WORD then EncodeWords(Padded(ws, POINTERS)) else []
  }

  // ----- the bytes of the file

  /** How many blocks `n` bytes need. */
  function BlocksFor(n: nat): nat {
    (n + BLOCK_SIZE - 1) / BLOCK_SIZE
  }

  /** The `k`th block of a file's bytes; the last one may be short. */
  function Chunk(data: seq<Byte>, k: nat): (c: seq<Byte>)
    requires k < BlocksFor(|data|)
    ensures 0 < |c| <= BLOCK_SIZE
  {
    if (k + 1) * BLOCK_SIZE <= |data| then data[k * BLOCK_SIZE..(k + 1) * BLOCK_SIZE] else data[k * BLOCK_SIZE..]
  }

  /** The block begins with the `k`th chunk of the file. */
  ghost predicate HoldsChunk(bytes: seq<Byte>, block: nat, data: seq<Byte>, k: nat) {
    k < BlocksFor(|data|) && Slice(bytes, block * BLOCK_SIZE, |Chunk(data, k)|) == Chunk(data, k)
  }

  /** The blocks hold consecutive chunks, beginning with the `k`th. */
  ghost predicate HoldChunks(bytes: seq<Byte>, blocks: seq<nat>, data: seq<Byte>, k: nat) {
    forall i :: 0 <= i < |blocks| ==> HoldsChunk(bytes, blocks[i], data, k + i)
  }

  lemma HoldMore(bytes: seq<Byte>, xs: seq<nat>, ys: seq<nat>, data: seq<Byte>, k: nat, next: nat)
    requires HoldChunks(bytes, xs, data, k) && next == k + |xs| && HoldChunks(bytes, ys, data, next)
    ensures HoldChunks(bytes, xs + ys, data, k)
  {
    forall i | 0 <= i < |xs + ys|
      ensures HoldsChunk(bytes, (xs + ys)[i], data, k + i)
    {
      if i >= |xs| {
        assert HoldsChunk(bytes, ys[i - |xs|], data, next + (i - |xs|));
      }
    }
  }

  // ----- what keeps a tree

  ghost predicate BlocksKept(before: seq<Byte>, after: seq<Byte>, blocks: set<nat>) {
    forall b :: b in blocks ==> BlockAt(after, b) == BlockAt(before, b)
  }

  lemma {:induction false} StoredKept(before: seq<Byte>, after: seq<Byte>, t: Tree, level: nat)
    requires Stored(before, t, level) && BlocksKept(before, after, Blocks(t))
    ensures Stored(after, t, level)
    decreases t
  {
    if t.Node? {
      StoredAllKept(before, after, t.kids, level - 1);
    }
  }

  lemma {:induction false} StoredAllKept(before: seq<Byte>, after: seq<Byte>, ts: seq<Tree>, level: nat)
    requires StoredAll(before, ts, level) && BlocksKept(before, after, BlocksOf(ts))
    ensures StoredAll(after, ts, level)
    decreases ts
  {
    if ts != [] {
      StoredAllKept(before, after, ts[..|ts| - 1], level);
      StoredKept(before, after, ts[|ts| - 1], level);
    }
  }

  lemma {:induction false} LeavesAreBlocks(t: Tree, b: nat)
    requires b in Leaves(t)
    ensures b in Blocks(t)
    decreases t
  {
    if t.Node? {
      LeavesOfAreBlocks(t.kids, b);
    }
  }

  lemma {:induction false} LeavesOfAreBlocks(ts: seq<Tree>, b: nat)
    requires b in LeavesOf(ts)
    ensures b in BlocksOf(ts)
    decreases ts
  {
    if b in LeavesOf(ts[..|ts| - 1]) {
      LeavesOfAreBlocks(ts[..|ts| - 1], b);
    } else {
      LeavesAreBlocks(ts[|ts| - 1], b);
    }
  }

  lemma ChunkKept(before: seq<Byte>, after: seq<Byte>, block: nat, data: seq<Byte>, k: nat)
    requires |after| == |before| && BlockAt(after, block) == BlockAt(before, block) && HasBlock(before, block)
    requires HoldsChunk(before, block, data, k)
    ensures HoldsChunk(after, block, data, k)
  {
    var n := |Chunk(data, k)|;
    SliceInBlock(before, block, 0, n);
    SliceInBlock(after, block, 0, n);
  }

  /** The data blocks of trees with no block twice are distinct. */
  lemma {:induction false} DistinctLeaves(t: Tree)
    requires Apart(t)
    ensures forall i, j :: 0 <= i < j < |Leaves(t)| ==> Leaves(t)[i] != Leaves(t)[j]
    decreases t
  {
    if t.Node? {
      DistinctLeavesOf(t.kids);
    }
  }

  lemma {:induction false} DistinctLeavesOf(ts: seq<Tree>)
    requires ApartAll(ts)
    ensures forall i, j :: 0 <= i < j < |LeavesOf(ts)| ==> LeavesOf(ts)[i] != LeavesOf(ts)[j]
    decreases ts
  {
    if ts != [] {
      var front, last := ts[..|ts| - 1], ts[|ts| - 1];
      DistinctLeavesOf(front);
      DistinctLeaves(last);
      forall b | b in LeavesOf(front) && b in Leaves(last)
        ensures false
      {
        LeavesOfAreBlocks(front, b);
        LeavesAreBlocks(last, b);
      }
      SplitDistinct(LeavesOf(front), Leaves(last));
    }
  }

  lemma SplitDistinct(xs: seq<nat>, ys: seq<nat>)
    requires forall i, j :: 0 <= i < j < |xs| ==> xs[i] != xs[j]
    requires forall i, j :: 0 <= i < j < |ys| ==> ys[i] != ys[j]
    requires forall b :: b in xs ==> b !in ys
    ensures forall i, j :: 0 <= i < j < |xs + ys| ==> (xs + ys)[i] != (xs + ys)[j]
  {
    forall i, j | 0 <= i < j < |xs + ys|
      ensures (xs + ys)[i] != (xs + ys)[j]
    {
      if i < |xs| <= j {
        assert xs[i] in xs && ys[j - |xs|] in ys;
      }
    }
  }

  // ----- an independent walk of the image

  /** The data blocks below a pointer, as a reader finds them: zero pointers end an index block. */
  ghost function Walk(bytes: seq<Byte>, pointer: nat, level: nat): seq<nat>
    decreases level, 1, 0
  {
    if level == 0 then [pointer] else
    var s := BlockAt(bytes, pointer);
    if |s| % 4 != 0 then [] else WalkAll(bytes, DecodeWords(s), level)
  }

  ghost function WalkAll(bytes: seq<Byte>, ws: seq<nat>, level: nat): seq<nat>
    requires level > 0
    decreases level, 0, |ws|
  {
    if ws == [] || ws[0] == 0 then [] else Walk(bytes, ws[0], level - 1) + WalkAll(bytes, ws[1..], level)
  }

  /** Blocks are numbered by words other than zero. */
  ghost predicate Numbered(blocks: set<nat>) {
    forall b :: b in blocks ==> 0 < b < WORD
  }

  /** What the tree says are its data blocks is what the walk of the image finds. */
  lemma {:induction false} WalkFinds(bytes: seq<Byte>, t: Tree, level: nat)
    requires Stored(bytes, t, level) && Numbered(Blocks(t))
    ensures Walk(bytes, t.block, level) == Leaves(t)
    decreases t, 0
  {
    if t.Node? {
      RootsNumbered(t.kids);
      WordsRoundTrip(Padded(Roots(t.kids), POINTERS));
      WalkAllFinds(bytes, t.kids, 0, level, NoPointers(POINTERS - |t.kids|));
      assert Roots(t.kids)[0..] == Roots(t.kids);
      LeavesFromAll(t.kids);
    }
  }

  lemma {:induction false} RootsNumbered(ts: seq<Tree>)
    requires Numbered(BlocksOf(ts))
    ensures forall i :: 0 <= i < |ts| ==> 0 < Roots(ts)[i] < WORD && Roots(ts)[i] == ts[i].block
    ensures forall i :: 0 <= i < |ts| ==> Numbered(Blocks(ts[i]))
    decreases ts
  {
    if ts != [] {
      RootsNumbered(ts[..|ts| - 1]);
      assert ts[|ts| - 1].block in Blocks(ts[|ts| - 1]);
    }
  }

  /** The data blocks of the trees from the `i`th on. */
  ghost function LeavesFrom(ts: seq<Tree>, i: nat): seq<nat>
    requires i <= |ts|
    decreases |ts| - i
  {
    if i == |ts| then [] else Leaves(ts[i]) + LeavesFrom(ts, i + 1)
  }

  lemma {:induction false} LeavesFromSplit(ts: seq<Tree>, i: nat)
    requires i < |ts|
    ensures LeavesFrom(ts, i) == LeavesFrom(ts[..|ts| - 1], i) + Leaves(ts[|ts| - 1])
    decreases |ts| - i
  {
    if i < |ts| - 1 {
      LeavesFromSplit(ts, i + 1);
    }
  }

  lemma {:induction false} LeavesFromAll(ts: seq<Tree>)
    ensures LeavesFrom(ts, 0) == LeavesOf(ts)
    decreases ts
  {
    if ts != [] {
      LeavesFromSplit(ts, 0);
      LeavesFromAll(ts[..|ts| - 1]);
    }
  }

  lemma {:induction false} StoredEach(bytes: seq<Byte>, ts: seq<Tree>, level: nat, i: nat)
    requires StoredAll(bytes, ts, level) && i < |ts|
    ensures Stored(bytes, ts[i], level)
    decreases ts
  {
    if i < |ts| - 1 {
      StoredEach(bytes, ts[..|ts| - 1], level, i);
    }
  }

  lemma {:induction false} WalkAllFinds(bytes: seq<Byte>, ts: seq<Tree>, i: nat, level: nat, zeros: seq<nat>)
    requires level > 0 && i <= |ts| && StoredAll(bytes, ts, level - 1) && Numbered(BlocksOf(ts))
    requires forall j :: 0 <= j < |zeros| ==> zeros[j] == 0
    ensures WalkAll(bytes, Roots(ts)[i..] + zeros, level) == LeavesFrom(ts, i)
    decreases ts, 1, |ts| - i
  {
    if i < |ts| {
      FirstPointer(ts, i, zeros);
      StoredEach(bytes, ts, level - 1, i);
      WalkFinds(bytes, ts[i], level - 1);
      WalkAllFinds(bytes, ts, i + 1, level, zeros);
    }
  }

  lemma FirstPointer(ts: seq<Tree>, i: nat, zeros: seq<nat>)
    requires i < |ts| && Numbered(BlocksOf(ts))
    ensures var ws := Roots(ts)[i..] + zeros;
            && ws != [] && ws[0] == ts[i].block && ws[0] != 0 && ws[1..] == Roots(ts)[i + 1..] + zeros
            && Numbered(Blocks(ts[i]))
  {
    RootsNumbered(ts);
  }
}
