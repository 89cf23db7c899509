/** Reading files through the block cache, where processes share its buffers, gives what the disk has. */
module CachedReader {
  import opened Units
  import opened Bytes
  import opened DirectoryBlock
  import opened ImageFile
  import opened DiskFormat
  import opened Volume
  import opened FileTree
  import opened VolumeFiles
  import opened BlockCache
  import opened BlockCacheMoves
  import opened BlockCacheRuns
  import opened BlockCacheBlocks
  import KernelReader

  /** The device has the image. */
  ghost predicate Carries(disk: Disk, dev: nat, bytes: seq<Byte>) {
    forall base: nat :: disk(Block(dev, base)) == Slice(bytes, base * SECTOR_SIZE, SECTORS_PER_BIO * SECTOR_SIZE)
  }

  /** `n` bytes from `bio_data(bio) + at`, in the buffer that a process holds. */
  function BufferData(bio: Bio, at: nat, n: nat): seq<Byte> {
    Slice(bio.buffer, bio.iter * SECTOR_SIZE + at, n)
  }

  /** The part of a run of any processes up to a moment is such a run. */
  lemma {:induction false} CarefulPrefix(s: Cache, disk: Disk, events: seq<Event>, t: nat)
    requires Sound(s, disk) && Possible(s, disk, events) && CarefulRun(s, disk, events) && t <= |events|
    ensures Possible(s, disk, events[..t]) && CarefulRun(s, disk, events[..t])
    decreases t
  {
    if t > 0 {
      StepSound(s, disk, events[0]);
      CarefulPrefix(BlockCacheRuns.Step(s, disk, events[0]), disk, events[1..], t - 1);
      assert events[..t][0] == events[0] && events[..t][1..] == events[1..][..t - 1];
    }
  }

  /** The process holds a valid buffer that it got for a sector of the device, after the first `t` events. */
  ghost predicate HoldsAt(n: nat, disk: Disk, events: seq<Event>, t: nat, p: nat, want: Want)
    requires Sound(Empty(n), disk)
  {
    t <= |events| && Possible(Empty(n), disk, events[..t]) &&
      var s := After(Empty(n), disk, events[..t]);
      Holding(s, p) && s.processes[p].phase.want == want && s.bios[s.processes[p].phase.bio].updated
  }

  /** What it then copies from the buffer. */
  ghost function CopiedAt(n: nat, disk: Disk, events: seq<Event>, t: nat, p: nat, want: Want, at: nat,
                          len: nat): seq<Byte>
    requires Sound(Empty(n), disk) && HoldsAt(n, disk, events, t, p, want)
  {
    var s := After(Empty(n), disk, events[..t]);
    BufferData(s.bios[s.processes[p].phase.bio], at, len)
  }

  /** In a run of careful allocations, what is copied is what the disk has there. */
  lemma CopiesDisk(n: nat, disk: Disk, events: seq<Event>, t: nat, p: nat, want: Want, at: nat, len: nat,
                   bytes: seq<Byte>)
    requires Sound(Empty(n), disk) && Possible(Empty(n), disk, events) && CarefulRun(Empty(n), disk, events)
    requires HoldsAt(n, disk, events, t, p, want) && Carries(disk, want.dev, bytes)
    ensures CopiedAt(n, disk, events, t, p, want, at, len) == BioData(bytes, want.sector, at, len)
  {
    CarefulPrefix(Empty(n), disk, events, t);
    ReadsDevice(n, disk, events[..t], p);
    var s := After(Empty(n), disk, events[..t]);
    var b := s.processes[p].phase.bio;
    assert s.bios[b].block == want.Target() by {
      HeldBlock(n, disk, events[..t], p);
    }
    assert want.Target().base == want.sector / SECTORS_PER_BIO * SECTORS_PER_BIO;
  }

  lemma HeldBlock(n: nat, disk: Disk, events: seq<Event>, p: nat)
    requires Sound(Empty(n), disk) && Possible(Empty(n), disk, events) && CarefulRun(Empty(n), disk, events)
    requires Holding(After(Empty(n), disk, events), p)
    ensures var s := After(Empty(n), disk, events);
            s.bios[s.processes[p].phase.bio].block == s.processes[p].phase.want.Target()
  {
    ExactIfCareful(Empty(n), disk, events);
    ExactAfter(Empty(n), disk, events);
    var s := After(Empty(n), disk, events);
    assert AimsAt(s.processes[p], s.processes[p].phase.bio, s.bios[s.processes[p].phase.bio].block);
  }

  // ----- read_file, with each block read through the cache

  /** A part of a block that is copied. */
  datatype Part = Part(block: nat, at: nat, n: nat)

  /** The parts that the loop of read_file copies, from a block on. */
  function Parts(inode: Inode, index: nat, at: nat, size: nat): seq<Part>
    requires |inode.blocks| == INODE_BLOCKS && at < BLOCK_SIZE
    decreases DIRECT_BLOCKS - index
  {
    if size == 0 || index >= DIRECT_BLOCKS then []
    else
      var n := Min(size, BLOCK_SIZE - at);
      [Part(inode.blocks[index], at, n)] + Parts(inode, index + 1, 0, size - n)
  }

  /** The parts are copied one by one, each from a buffer that the process holds at its own moment. */
  ghost predicate Reads(n: nat, disk: Disk, events: seq<Event>, p: nat, dev: nat, parts: seq<Part>, times: seq<nat>)
    requires Sound(Empty(n), disk)
  {
    |times| == |parts| && forall i :: 0 <= i < |parts| ==>
      HoldsAt(n, disk, events, times[i], p, Want(dev, parts[i].block * SECTORS_PER_BLOCK))
  }

  ghost function AllCopied(n: nat, disk: Disk, events: seq<Event>, p: nat, dev: nat, parts: seq<Part>,
                           times: seq<nat>): seq<Byte>
    requires Sound(Empty(n), disk) && Reads(n, disk, events, p, dev, parts, times)
    decreases |parts|
  {
    if parts == [] then []
    else
      var want := Want(dev, parts[0].block * SECTORS_PER_BLOCK);
      CopiedAt(n, disk, events, times[0], p, want, parts[0].at, parts[0].n)
      + AllCopied(n, disk, events, p, dev, parts[1..], times[1..])
  }

  /** The same parts on the disk. */
  function AllOnDisk(bytes: seq<Byte>, parts: seq<Part>): seq<Byte>
    decreases |parts|
  {
    if parts == [] then []
    else BioData(bytes, parts[0].block * SECTORS_PER_BLOCK, parts[0].at, parts[0].n) + AllOnDisk(bytes, parts[1..])
  }

  lemma {:induction false} CopiesAll(n: nat, disk: Disk, events: seq<Event>, p: nat, dev: nat, bytes: seq<Byte>,
                                     parts: seq<Part>, times: seq<nat>)
    requires Sound(Empty(n), disk) && Possible(Empty(n), disk, events) && CarefulRun(Empty(n), disk, events)
    requires Carries(disk, dev, bytes) && Reads(n, disk, events, p, dev, parts, times)
    ensures AllCopied(n, disk, events, p, dev, parts, times) == AllOnDisk(bytes, parts)
    decreases |parts|
  {
    if parts != [] {
      LaterReads(n, disk, events, p, dev, parts, times);
      var want := Want(dev, parts[0].block * SECTORS_PER_BLOCK);
      CopiesDisk(n, disk, events, times[0], p, want, parts[0].at, parts[0].n, bytes);
      CopiesAll(n, disk, events, p, dev, bytes, parts[1..], times[1..]);
    }
  }

  /** One part is the file's bytes there. */
  lemma PartIsData(bytes: seq<Byte>, g: Geometry, f: File, index: nat, at: nat, len: nat)
    requires GroupOk(bytes, g) && WholeBios(bytes) && FileOk(bytes, g, f)
    requires index < DIRECT_BLOCKS && at + len <= BLOCK_SIZE && len > 0 && index * BLOCK_SIZE + at + len <= |f.data|
    requires |InodeNo(bytes, g, f.ino).blocks| == INODE_BLOCKS
    ensures BioData(bytes, InodeNo(bytes, g, f.ino).blocks[index] * SECTORS_PER_BLOCK, at, len)
            == f.data[index * BLOCK_SIZE + at..index * BLOCK_SIZE + at + len]
  {
    var block := InodeNo(bytes, g, f.ino).blocks[index];
    FileMeans(bytes, g, f);
    KernelReader.DirectChunk(bytes, g, f, index);
    KernelReader.BufferIsData(bytes, block, f.data, index, at, len);
    BlockPart(bytes, block, at, len);
  }

  /** A part of a block through its bio. */
  lemma BlockPart(bytes: seq<Byte>, block: nat, at: nat, n: nat)
    requires WholeBios(bytes) && HasBlock(bytes, block) && at + n <= BLOCK_SIZE && n > 0
    ensures BioData(bytes, block * SECTORS_PER_BLOCK, at, n) == BlockAt(bytes, block)[at..at + n]
  {
    BioIsLinear(bytes, block * SECTORS_PER_BLOCK, at, n);
    SliceInBlock(bytes, block, at, n);
  }

  lemma FirstPart(bytes: seq<Byte>, inode: Inode, index: nat, at: nat, size: nat)
    requires |inode.blocks| == INODE_BLOCKS && at < BLOCK_SIZE && size > 0 && index < DIRECT_BLOCKS
    ensures var len := Min(size, BLOCK_SIZE - at);
            AllOnDisk(bytes, Parts(inode, index, at, size))
            == BioData(bytes, inode.blocks[index] * SECTORS_PER_BLOCK, at, len)
               + AllOnDisk(bytes, Parts(inode, index + 1, 0, size - len))
  {
    var len := Min(size, BLOCK_SIZE - at);
    var later := Parts(inode, index + 1, 0, size - len);
    var parts := [Part(inode.blocks[index], at, len)] + later;
    assert parts[1..] == later && Parts(inode, index, at, size) == parts;
  }

  lemma NoParts(bytes: seq<Byte>, inode: Inode, index: nat, at: nat, size: nat)
    requires |inode.blocks| == INODE_BLOCKS && at < BLOCK_SIZE && (size == 0 || index >= DIRECT_BLOCKS)
    ensures AllOnDisk(bytes, Parts(inode, index, at, size)) == []
  {
  }

  /** Every part of the inode's direct blocks that belongs to the file is its bytes there. */
  ghost predicate PartHolds(bytes: seq<Byte>, inode: Inode, data: seq<Byte>, index: nat, at: nat, len: nat)
    requires |inode.blocks| == INODE_BLOCKS
  {
    index < DIRECT_BLOCKS && at + len <= BLOCK_SIZE && len > 0 && index * BLOCK_SIZE + at + len <= |data| ==>
      BioData(bytes, inode.blocks[index] * SECTORS_PER_BLOCK, at, len)
      == data[index * BLOCK_SIZE + at..index * BLOCK_SIZE + at + len]
  }

  ghost predicate PartsHold(bytes: seq<Byte>, inode: Inode, data: seq<Byte>)
    requires |inode.blocks| == INODE_BLOCKS
  {
    forall index: nat, at: nat, len: nat :: PartHolds(bytes, inode, data, index, at, len)
  }

  lemma FilePartsHold(bytes: seq<Byte>, g: Geometry, f: File)
    requires GroupOk(bytes, g) && WholeBios(bytes) && FileOk(bytes, g, f)
    requires |InodeNo(bytes, g, f.ino).blocks| == INODE_BLOCKS
    ensures PartsHold(bytes, InodeNo(bytes, g, f.ino), f.data)
  {
    forall index: nat, at: nat, len: nat
      ensures PartHolds(bytes, InodeNo(bytes, g, f.ino), f.data, index, at, len)
    {
      if index < DIRECT_BLOCKS && at + len <= BLOCK_SIZE && len > 0 && index * BLOCK_SIZE + at + len <= |f.data| {
        PartIsData(bytes, g, f, index, at, len);
      }
    }
  }

  lemma OnePart(bytes: seq<Byte>, inode: Inode, data: seq<Byte>, index: nat, at: nat, len: nat, pos: nat)
    requires |inode.blocks| == INODE_BLOCKS && PartsHold(bytes, inode, data) && index < DIRECT_BLOCKS
    requires at + len <= BLOCK_SIZE && len > 0 && pos == index * BLOCK_SIZE + at && pos + len <= |data|
    ensures BioData(bytes, inode.blocks[index] * SECTORS_PER_BLOCK, at, len) == data[pos..pos + len]
  {
    assert PartHolds(bytes, inode, data, index, at, len);
  }

  /** The parts from a block on, up to `end`, make up the file there. */
  lemma {:induction false} PartsAreFile(bytes: seq<Byte>, inode: Inode, data: seq<Byte>, index: nat, at: nat,
                                        size: nat, pos: nat, end: nat)
    requires |inode.blocks| == INODE_BLOCKS && PartsHold(bytes, inode, data)
    requires at < BLOCK_SIZE && pos == index * BLOCK_SIZE + at && pos + size <= |data|
    requires index <= DIRECT_BLOCKS && (index == DIRECT_BLOCKS ==> at == 0)
    requires end == Min(pos + size, KernelReader.READABLE)
    ensures AllOnDisk(bytes, Parts(inode, index, at, size)) == data[pos..end]
    decreases DIRECT_BLOCKS - index
  {
    if size == 0 || index == DIRECT_BLOCKS {
      NoParts(bytes, inode, index, at, size);
    } else {
      var len := Min(size, BLOCK_SIZE - at);
      FirstPart(bytes, inode, index, at, size);
      OnePart(bytes, inode, data, index, at, len, pos);
      if size > len {
        PartsAreFile(bytes, inode, data, index + 1, 0, size - len, pos + len, end);
      } else {
        NoParts(bytes, inode, index + 1, 0, size - len);
      }
      var first := BioData(bytes, inode.blocks[index] * SECTORS_PER_BLOCK, at, len);
      Joined(data, pos, len, end, first, AllOnDisk(bytes, Parts(inode, index + 1, 0, size - len)));
    }
  }

  /**
   Whatever the other processes do meanwhile, if all allocations of the run are careful, the bytes that read_file
   copies from the cache are those of the file, as far as its direct blocks go.
   */
  lemma ReadsFile(n: nat, disk: Disk, events: seq<Event>, p: nat, dev: nat, bytes: seq<Byte>,
                  g: Geometry, f: File, pos: nat, size: nat, inode: Inode, times: seq<nat>)
    requires Sound(Empty(n), disk) && Possible(Empty(n), disk, events) && CarefulRun(Empty(n), disk, events)
    requires Carries(disk, dev, bytes) && GroupOk(bytes, g) && WholeBios(bytes) && FileOk(bytes, g, f)
    requires pos + size <= |f.data| && pos < KernelReader.READABLE
    requires inode == InodeNo(bytes, g, f.ino) && |inode.blocks| == INODE_BLOCKS
    requires Reads(n, disk, events, p, dev, Parts(inode, pos / BLOCK_SIZE, pos % BLOCK_SIZE, size), times)
    ensures AllCopied(n, disk, events, p, dev, Parts(inode, pos / BLOCK_SIZE, pos % BLOCK_SIZE, size), times)
            == f.data[pos..Min(pos + size, KernelReader.READABLE)]
  {
    CopiesAll(n, disk, events, p, dev, bytes, Parts(inode, pos / BLOCK_SIZE, pos % BLOCK_SIZE, size), times);
    var end := Min(pos + size, KernelReader.READABLE);
    FilePartsHold(bytes, g, f);
    PartsAreFile(bytes, inode, f.data, pos / BLOCK_SIZE, pos % BLOCK_SIZE, size, pos, end);
  }

  lemma LaterReads(n: nat, disk: Disk, events: seq<Event>, p: nat, dev: nat, parts: seq<Part>, times: seq<nat>)
    requires Sound(Empty(n), disk) && Reads(n, disk, events, p, dev, parts, times) && parts != []
    ensures Reads(n, disk, events, p, dev, parts[1..], times[1..])
    ensures HoldsAt(n, disk, events, times[0], p, Want(dev, parts[0].block * SECTORS_PER_BLOCK))
  {
    forall i | 0 <= i < |parts[1..]|
      ensures HoldsAt(n, disk, events, times[1..][i], p, Want(dev, parts[1..][i].block * SECTORS_PER_BLOCK))
    {
      assert parts[1..][i] == parts[i + 1] && times[1..][i] == times[i + 1];
    }
  }

  lemma Joined(data: seq<Byte>, pos: nat, n: nat, end: nat, first: seq<Byte>, rest: seq<Byte>)
    requires pos + n <= end <= |data| && first == data[pos..pos + n] && rest == data[pos + n..end]
    ensures first + rest == data[pos..end]
  {
  }
}
