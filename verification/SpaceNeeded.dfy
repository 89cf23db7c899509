/** How many blocks has_enough_space asks for, in the loops that count them. */
module SpaceNeeded {
  import opened Units
  import opened DirectoryBlock
  import opened DiskFormat
  import opened FileTree
  import opened FileWriter
  import opened FileData

  const POINTER_SIZE: nat := 4

  function Less(n: nat, pointers: nat): nat {
    if n >= pointers then n - pointers else 0
  }

  /** How many index blocks are used for `n` blocks, of `count` that have room for so many pointers each. */
  function Indexes(n: nat, pointers: nat, count: nat): nat {
    if n == 0 || count == 0 then 0 else 1 + Indexes(Less(n, pointers), pointers, count - 1)
  }

  /** How many of the blocks are then left. */
  function Behind(n: nat, pointers: nat, count: nat): (left: nat)
    ensures left <= n
  {
    if n == 0 || count == 0 then n else Behind(Less(n, pointers), pointers, count - 1)
  }

  /** The same as `Indexes` with one more level. */
  function Trees(n: nat, pointers: nat, count: nat): nat {
    if n == 0 || count == 0 then 0
    else 1 + Indexes(n, pointers, pointers) + Trees(Behind(n, pointers, pointers), pointers, count - 1)
  }

  /** All index blocks for `n` blocks behind the direct ones. */
  function Metadata(n: nat, pointers: nat): nat {
    var second := Less(n, pointers);
    var third := Behind(second, pointers, pointers);
    (if n > 0 then 1 else 0)
    + (if second > 0 then 1 + Indexes(second, pointers, pointers) else 0)
    + (if third > 0 then 1 + Trees(third, pointers, pointers) else 0)
  }

  /** The count goes behind the direct blocks only if they are full. */
  function Required(n: nat, pointers: nat): nat {
    n + Metadata(if n >= DIRECT_BLOCKS then n - DIRECT_BLOCKS else n, pointers)
  }

  /** The loop for the leaves of a tree of index blocks. */
  method CountIndexes(blocks: nat, pointers: nat) returns (count: nat, left: nat)
    ensures count == Indexes(blocks, pointers, pointers) && left == Behind(blocks, pointers, pointers)
  {
    count, left := 0, blocks;
    var i := 0;
    while i < pointers && left > 0
      invariant i <= pointers
      invariant count + Indexes(left, pointers, pointers - i) == Indexes(blocks, pointers, pointers)
      invariant Behind(left, pointers, pointers - i) == Behind(blocks, pointers, pointers)
    {
      count := count + 1;
      left := if left >= pointers then left - pointers else 0;
      i := i + 1;
    }
  }

  /** The two nested loops for the third level. */
  method CountTrees(blocks: nat, pointers: nat) returns (count: nat)
    ensures count == Trees(blocks, pointers, pointers)
  {
    count := 0;
    var left, i := blocks, 0;
    while i < pointers && left > 0
      invariant i <= pointers
      invariant count + Trees(left, pointers, pointers - i) == Trees(blocks, pointers, pointers)
    {
      var indexes;
      indexes, left := CountIndexes(left, pointers);
      count := count + 1 + indexes;
      i := i + 1;
    }
  }

  method CountMetadata(blocks: nat, pointers: nat) returns (count: nat)
    ensures count == Metadata(blocks, pointers)
  {
    count := 0;
    var left := blocks;
    if left > 0 {
      count := count + 1;
      left := if left >= pointers then left - pointers else 0;
    }
    if left > 0 {
      var indexes;
      indexes, left := CountIndexes(left, pointers);
      count := count + 1 + indexes;
    }
    if left > 0 {
      var trees := CountTrees(left, pointers);
      count := count + 1 + trees;
    }
  }

  /** The blocks that has_enough_space compares with those free. */
  method RequiredBlocks(size: nat) returns (required: nat)
    ensures required == Asked(BlocksFor(size))
  {
    var dataBlocks := size / BLOCK_SIZE;
    var pointers := BLOCK_SIZE % POINTER_SIZE;
    if size % BLOCK_SIZE != 0 {
      dataBlocks := dataBlocks + 1;
    }
    RoundedUp(size);
    var behind := if dataBlocks >= DIRECT_BLOCKS then dataBlocks - DIRECT_BLOCKS else dataBlocks;
    var metadata := CountMetadata(behind, pointers);
    required := dataBlocks + metadata;
    WithoutPointers(dataBlocks);
  }

  lemma RoundedUp(size: nat)
    ensures BlocksFor(size) == size / BLOCK_SIZE + if size % BLOCK_SIZE != 0 then 1 else 0
  {
  }

  // ----- what they come to

  /**
   What is asked for in the end: the number of pointers is taken as a remainder, which is 0, so the loops
   over index blocks never run and at most three index blocks are asked for.
   */
  function Asked(n: nat): nat {
    n + (if n == 0 || n == DIRECT_BLOCKS then 0 else 3)
  }

  lemma WithoutPointers(n: nat)
    ensures Required(n, BLOCK_SIZE % POINTER_SIZE) == Asked(n)
  {
    assert BLOCK_SIZE % POINTER_SIZE == 0;
  }

  /**
   With the quotient instead, as many blocks would be asked for as the file takes, and one more if the
   direct blocks suffice without being full.
   */
  lemma WithQuotient(n: nat)
    requires n <= DIRECT_BLOCKS + Capacity(1) + Capacity(2) + Capacity(3)
    ensures Required(n, BLOCK_SIZE / POINTER_SIZE) == FileBlocks(n) + if 0 < n < DIRECT_BLOCKS then 1 else 0
  {
    Capacities();
    if n >= DIRECT_BLOCKS {
      LevelsCounted(n - DIRECT_BLOCKS, BLOCK_SIZE / POINTER_SIZE);
    } else {
      assert Less(n, BLOCK_SIZE / POINTER_SIZE) == 0;
      assert LevelsBlocks(1, 0) == 0;
    }
  }

  lemma LevelsCounted(n: nat, pointers: nat)
    requires pointers == 256 && n <= Capacity(1) + Capacity(2) + Capacity(3)
    ensures LevelsBlocks(1, n) == n + Metadata(n, pointers)
  {
    Capacities();
    FirstStep(n);
    if n > 256 {
      SecondStep(n - 256);
      SecondCounted(n - 256, Min(65536, n - 256), pointers);
      ThirdCounted(n - 256 - Min(65536, n - 256), pointers);
    }
  }

  lemma FirstStep(n: nat)
    ensures LevelsBlocks(1, n) == if n == 0 then 0 else if n <= 256 then n + 1 else 257 + LevelsBlocks(2, n - 256)
  {
    Capacities();
    var first := Min(256, n);
    assert n > 0 ==> TreeBlocks(1, first) == 1 + first;
    assert LevelsBlocks(2, 0) == 0;
  }

  lemma SecondStep(n: nat)
    requires n > 0
    ensures LevelsBlocks(2, n) == 1 + BelowBlocks(2, Min(65536, n)) + LevelsBlocks(3, n - Min(65536, n))
  {
    Capacities();
  }

  lemma SecondCounted(n: nat, second: nat, pointers: nat)
    requires pointers == 256 && second == Min(256 * pointers, n)
    ensures BelowBlocks(2, second) == second + Indexes(n, pointers, pointers)
    ensures Behind(n, pointers, pointers) == n - second
  {
    IndexesCounted(n, pointers, pointers);
    IndexesCapped(n, pointers, pointers);
    IndexesCounted(second, pointers, pointers);
  }

  lemma ThirdCounted(n: nat, pointers: nat)
    requires pointers == 256 && n <= Capacity(3)
    ensures LevelsBlocks(3, n) == n + if n > 0 then 1 + Trees(n, pointers, pointers) else 0
  {
    Capacities();
    TreesCounted(n, pointers, pointers);
    assert n > 0 ==> LevelsBlocks(3, n) == TreeBlocks(3, n) + LevelsBlocks(4, 0);
  }

  lemma {:induction false} IndexesCounted(n: nat, pointers: nat, count: nat)
    requires pointers == 256
    ensures n <= 256 * count ==> BelowBlocks(2, n) == n + Indexes(n, pointers, count)
    ensures Behind(n, pointers, count) == Less(n, 256 * count)
    decreases count
  {
    Capacities();
    if n > 0 && count > 0 {
      IndexesCounted(Less(n, pointers), pointers, count - 1);
      var first := Min(256, n);
      assert TreeBlocks(1, first) == 1 + first;
    }
  }

  /** Blocks that do not fit do not matter. */
  lemma {:induction false} IndexesCapped(n: nat, pointers: nat, count: nat)
    requires pointers == 256
    ensures Indexes(n, pointers, count) == Indexes(Min(n, 256 * count), pointers, count)
    decreases count
  {
    if n > 0 && count > 0 {
      IndexesCapped(Less(n, pointers), pointers, count - 1);
      assert Less(Min(n, 256 * count), pointers) == Min(Less(n, pointers), 256 * (count - 1));
    }
  }

  lemma {:induction false} TreesCounted(n: nat, pointers: nat, count: nat)
    requires pointers == 256 && n <= 65536 * count
    ensures BelowBlocks(3, n) == n + Trees(n, pointers, count)
    decreases count
  {
    if n > 0 {
      OneTree(n, pointers);
      TreesStep(n, pointers, count);
      TreesCounted(n - Min(65536, n), pointers, count - 1);
    }
  }

  lemma TreesStep(n: nat, pointers: nat, count: nat)
    requires pointers == 256 && n > 0 && count > 0
    ensures Trees(n, pointers, count)
            == 1 + Indexes(n, pointers, pointers) + Trees(n - Min(65536, n), pointers, count - 1)
  {
    IndexesCounted(n, pointers, pointers);
  }

  lemma OneTree(n: nat, pointers: nat)
    requires pointers == 256 && n > 0
    ensures var first := Min(65536, n);
            BelowBlocks(3, n) == first + 1 + Indexes(n, pointers, pointers) + BelowBlocks(3, n - first)
  {
    Capacities();
    var first := Min(65536, n);
    TreeIndexes(n, pointers);
    assert BelowBlocks(3, n) == TreeBlocks(2, first) + BelowBlocks(3, n - first);
  }

  lemma TreeIndexes(n: nat, pointers: nat)
    requires pointers == 256 && n > 0
    ensures TreeBlocks(2, Min(65536, n)) == Min(65536, n) + 1 + Indexes(n, pointers, pointers)
  {
    var first := Min(65536, n);
    IndexesCapped(n, pointers, pointers);
    IndexesCounted(first, pointers, pointers);
    assert TreeBlocks(2, first) == 1 + BelowBlocks(2, first);
  }
}
