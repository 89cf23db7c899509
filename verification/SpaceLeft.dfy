/** What is left in an image for more files: blocks and inodes of the first group, and room in the root directory. */
module SpaceLeft {
  import opened Bytes
  import opened DirectoryBlock
  import opened ImageFile
  import opened DiskFormat

  datatype Space = Space(blocks: nat, inodes: nat, rooms: seq<nat>)

  ghost function Rooms(bytes: seq<Byte>, dir: seq<nat>): (rooms: seq<nat>)
    ensures |rooms| == |dir| && forall i :: 0 <= i < |dir| ==> rooms[i] == Room(BlockAt(bytes, dir[i]))
  {
    seq(|dir|, i requires 0 <= i < |dir| => Room(BlockAt(bytes, dir[i])))
  }

  ghost function SpaceOf(bytes: seq<Byte>, dir: seq<nat>): Space {
    Space(DescOf(bytes, 0).freeBlocks, DescOf(bytes, 0).freeInodes, Rooms(bytes, dir))
  }

  /** The first directory block with room for a name of that length, or the number of blocks. */
  function FirstFit(rooms: seq<nat>, len: nat): (i: nat)
    ensures i <= |rooms| && (i < |rooms| ==> RecLen(len) <= rooms[i])
    ensures forall j :: 0 <= j < i ==> rooms[j] < RecLen(len)
  {
    if rooms == [] || RecLen(len) <= rooms[0] then 0 else 1 + FirstFit(rooms[1..], len)
  }

  lemma FirstFitIs(rooms: seq<nat>, len: nat, i: nat)
    requires i <= |rooms| && (i < |rooms| ==> RecLen(len) <= rooms[i])
    requires forall j :: 0 <= j < i ==> rooms[j] < RecLen(len)
    ensures FirstFit(rooms, len) == i
  {
  }

  /** There is an inode, and a directory block with room or one that can be added. */
  predicate EntryFits(s: Space, len: nat) {
    s.inodes > 0 && (FirstFit(s.rooms, len) < |s.rooms| || (|s.rooms| < DIRECT_BLOCKS && s.blocks > 0))
  }

  function AfterEntry(s: Space, len: nat): Space
    requires EntryFits(s, len)
  {
    var i := FirstFit(s.rooms, len);
    if i < |s.rooms| then Space(s.blocks, s.inodes - 1, s.rooms[i := RoomAfter(len, s.rooms[i])])
    else Space(s.blocks - 1, s.inodes - 1, s.rooms + [RoomAfter(len, BLOCK_SIZE)])
  }

  lemma RoomsSame(before: seq<Byte>, after: seq<Byte>, dir: seq<nat>)
    requires forall i :: 0 <= i < |dir| ==> BlockAt(after, dir[i]) == BlockAt(before, dir[i])
    ensures Rooms(after, dir) == Rooms(before, dir)
  {
  }

  lemma RoomsChanged(before: seq<Byte>, after: seq<Byte>, dir: seq<nat>, i: nat)
    requires i < |dir| && forall j :: 0 <= j < |dir| && j != i ==> BlockAt(after, dir[j]) == BlockAt(before, dir[j])
    ensures Rooms(after, dir) == Rooms(before, dir)[i := Room(BlockAt(after, dir[i]))]
  {
  }

  lemma RoomsMore(bytes: seq<Byte>, dir: seq<nat>, block: nat)
    requires PaddingAt(BlockAt(bytes, block), 0)
    ensures Rooms(bytes, dir + [block]) == Rooms(bytes, dir) + [BLOCK_SIZE]
  {
    assert End(BlockAt(bytes, block), 0) == 0;
  }
}
