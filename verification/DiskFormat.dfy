/** The structures of the file system as bytes, and where each of the two programs looks for them. */
module DiskFormat {
  import opened Units
  import opened Bytes
  import opened DirectoryBlock
  import opened ImageFile

  const SUPER_BLOCK_NO: nat := 1
  const SUPER_SIZE: nat := 20
  const DESC_SIZE: nat := 16
  const INODE_SIZE: nat := 128
  const INODE_BLOCKS: nat := 24
  const DIRECT_BLOCKS: nat := 21
  const POINTERS: nat := 256
  const BLOCKS_PER_GROUP: nat := 8192
  const ROOT_INO: nat := 1
  const S_IFREG: nat := 0x8000
  const S_IFDIR: nat := 0x4000

  datatype SuperBlock = SuperBlock(inodesCount: nat, blocksCount: nat, freeInodes: nat, freeBlocks: nat,
                                   inodesPerGroup: nat) {
    ghost predicate Fits() {
      inodesCount < WORD && blocksCount < WORD && freeInodes < WORD && freeBlocks < WORD && inodesPerGroup < WORD
    }
  }

  datatype GroupDesc = GroupDesc(blockBitmap: nat, inodeBitmap: nat, inodeTable: nat, freeBlocks: nat,
                                 freeInodes: nat) {
    ghost predicate Fits() {
      blockBitmap < WORD && inodeBitmap < WORD && inodeTable < WORD && freeBlocks < 0x1_0000 && freeInodes < 0x1_0000
    }
  }

  /** `other` holds the owner, time and link fields, which neither program looks at. */
  datatype Inode = Inode(mode: nat, other: seq<Byte>, size: nat, blocks: seq<nat>) {
    ghost predicate Fits() {
      && mode < 0x1_0000 && |other| == 22 && size < WORD * WORD
      && |blocks| == INODE_BLOCKS && forall i :: 0 <= i < INODE_BLOCKS ==> blocks[i] < WORD
    }
  }

  // ----- words

  function EncodeWords(ws: seq<nat>): (s: seq<Byte>)
    requires forall i :: 0 <= i < |ws| ==> ws[i] < WORD
    ensures |s| == 4 * |ws|
  {
    if ws == [] then [] else Encode32(ws[0]) + EncodeWords(ws[1..])
  }

  function DecodeWords(s: seq<Byte>): (ws: seq<nat>)
    requires |s| % 4 == 0
    ensures |ws| == |s| / 4 && forall i :: 0 <= i < |ws| ==> ws[i] < WORD
  {
    if s == [] then [] else [Word32(s, 0)] + DecodeWords(s[4..])
  }

  lemma {:induction false} WordsRoundTrip(ws: seq<nat>)
    requires forall i :: 0 <= i < |ws| ==> ws[i] < WORD
    ensures DecodeWords(EncodeWords(ws)) == ws
  {
    if ws != [] {
      var s := Encode32(ws[0]) + EncodeWords(ws[1..]);
      assert s[4..] == EncodeWords(ws[1..]);
      assert Word32(s, 0) == Word32(Encode32(ws[0]), 0);
      WordsRoundTrip(ws[1..]);
    }
  }

  function Encode64(w: nat): (s: seq<Byte>)
    requires w < WORD * WORD
    ensures |s| == 8
  {
    Encode32(w % WORD) + Encode32(w / WORD)
  }

  // ----- structures

  function EncodeSuper(sb: SuperBlock): (s: seq<Byte>)
    requires sb.Fits()
    ensures |s| == SUPER_SIZE
  {
    EncodeWords([sb.inodesCount, sb.blocksCount, sb.freeInodes, sb.freeBlocks, sb.inodesPerGroup])
  }

  function DecodeSuper(s: seq<Byte>): SuperBlock
    requires |s| == SUPER_SIZE
  {
    var ws := DecodeWords(s);
    SuperBlock(ws[0], ws[1], ws[2], ws[3], ws[4])
  }

  lemma SuperRoundTrip(sb: SuperBlock)
    requires sb.Fits()
    ensures DecodeSuper(EncodeSuper(sb)) == sb
  {
    WordsRoundTrip([sb.inodesCount, sb.blocksCount, sb.freeInodes, sb.freeBlocks, sb.inodesPerGroup]);
  }

  function EncodeDesc(d: GroupDesc): (s: seq<Byte>)
    requires d.Fits()
    ensures |s| == DESC_SIZE
  {
    EncodeWords([d.blockBitmap, d.inodeBitmap, d.inodeTable]) + Encode16(d.freeBlocks) + Encode16(d.freeInodes)
  }

  function DecodeDesc(s: seq<Byte>): (d: GroupDesc)
    requires |s| == DESC_SIZE
    ensures d.Fits()
  {
    var ws := DecodeWords(s[..12]);
    GroupDesc(ws[0], ws[1], ws[2], Word16(s, 12), Word16(s, 14))
  }

  lemma DescRoundTrip(d: GroupDesc)
    requires d.Fits()
    ensures DecodeDesc(EncodeDesc(d)) == d
  {
    var ws := [d.blockBitmap, d.inodeBitmap, d.inodeTable];
    WordsRoundTrip(ws);
    var s := EncodeDesc(d);
    assert s[..12] == EncodeWords(ws);
    assert Word16(s, 12) == Word16(Encode16(d.freeBlocks), 0);
    assert Word16(s, 14) == Word16(Encode16(d.freeInodes), 0);
  }

  function EncodeInode(n: Inode): (s: seq<Byte>)
    requires n.Fits()
    ensures |s| == INODE_SIZE
  {
    Encode16(n.mode) + n.other + Encode64(n.size) + EncodeWords(n.blocks)
  }

  function DecodeInode(s: seq<Byte>): (n: Inode)
    requires |s| == INODE_SIZE
    ensures n.Fits()
  {
    Inode(Word16(s, 0), s[2..24], Word32(s, 24) + WORD * Word32(s, 28), DecodeWords(s[32..]))
  }

  lemma InodeRoundTrip(n: Inode)
    requires n.Fits()
    ensures DecodeInode(EncodeInode(n)) == n
  {
    var s := EncodeInode(n);
    assert Word16(s, 0) == Word16(Encode16(n.mode), 0);
    assert s[2..24] == n.other;
    assert Word32(s, 24) == Word32(Encode32(n.size % WORD), 0);
    assert Word32(s, 28) == Word32(Encode32(n.size / WORD), 0);
    assert s[32..] == EncodeWords(n.blocks);
    WordsRoundTrip(n.blocks);
  }

  // ----- the place of every field

  lemma {:induction false} WordAt(s: seq<Byte>, k: nat)
    requires |s| % 4 == 0 && 4 * k < |s|
    ensures DecodeWords(s)[k] == LittleEndian(s[4 * k..4 * k + 4])
    decreases k
  {
    if k == 0 {
      WordsAreLittleEndian(s, 0);
    } else {
      WordAt(s[4..], k - 1);
      assert s[4..][4 * (k - 1)..4 * (k - 1) + 4] == s[4 * k..4 * k + 4];
    }
  }

  lemma SuperLayout(s: seq<Byte>)
    requires |s| == SUPER_SIZE
    ensures DecodeSuper(s) == SuperBlock(LittleEndian(s[0..4]), LittleEndian(s[4..8]), LittleEndian(s[8..12]),
                                         LittleEndian(s[12..16]), LittleEndian(s[16..20]))
  {
    WordAt(s, 0);
    WordAt(s, 1);
    WordAt(s, 2);
    WordAt(s, 3);
    WordAt(s, 4);
  }

  lemma DescLayout(s: seq<Byte>)
    requires |s| == DESC_SIZE
    ensures DecodeDesc(s) == GroupDesc(LittleEndian(s[0..4]), LittleEndian(s[4..8]), LittleEndian(s[8..12]),
                                       LittleEndian(s[12..14]), LittleEndian(s[14..16]))
  {
    var ws := s[..12];
    WordAt(ws, 0);
    WordAt(ws, 1);
    WordAt(ws, 2);
    assert ws[0..4] == s[0..4] && ws[4..8] == s[4..8] && ws[8..12] == s[8..12];
    WordsAreLittleEndian(s, 12);
    WordsAreLittleEndian(s, 14);
  }

  lemma InodeLayout(s: seq<Byte>, k: nat)
    requires |s| == INODE_SIZE && k < INODE_BLOCKS
    ensures DecodeInode(s).mode == LittleEndian(s[0..2]) && DecodeInode(s).size == LittleEndian(s[24..32])
    ensures DecodeInode(s).blocks[k] == LittleEndian(s[32 + 4 * k..36 + 4 * k])
  {
    WordsAreLittleEndian(s, 0);
    LongWord(s[24..32]);
    WordsAreLittleEndian(s, 24);
    WordsAreLittleEndian(s, 28);
    assert s[24..32][..4] == s[24..28] && s[24..32][4..] == s[28..32];
    WordAt(s[32..], k);
    assert s[32..][4 * k..4 * k + 4] == s[32 + 4 * k..36 + 4 * k];
  }

  lemma LongWord(b: seq<Byte>)
    requires |b| == 8
    ensures LittleEndian(b) == LittleEndian(b[..4]) + WORD * LittleEndian(b[4..])
  {
    FourBytes(b[..4]);
    var b1, b2, b3 := b[1..], b[2..], b[3..];
    assert b1[1..] == b2 && b2[1..] == b3 && b3[1..] == b[4..];
    assert LittleEndian(b3) == b[3] as nat + 0x100 * LittleEndian(b[4..]);
    assert LittleEndian(b2) == b[2] as nat + 0x100 * LittleEndian(b3);
    assert LittleEndian(b1) == b[1] as nat + 0x100 * LittleEndian(b2);
  }

  // ----- where mkfs puts them

  const NO_SUPER := SuperBlock(0, 0, 0, 0, 0)
  const NO_DESC := GroupDesc(0, 0, 0, 0, 0)

  /** `n` empty block pointers. */
  function NoPointers(n: nat): (ws: seq<nat>)
    ensures |ws| == n && forall i :: 0 <= i < n ==> ws[i] == 0
  {
    seq(n, _ => 0)
  }

  function EmptyInode(): (n: Inode)
    ensures n.Fits()
  {
    Inode(0, Zeros(22), 0, NoPointers(INODE_BLOCKS))
  }

  function DescOffset(group: nat): nat {
    group * DESC_SIZE + (SUPER_BLOCK_NO + 1) * BLOCK_SIZE
  }

  function InodeOffset(table: nat, index: nat): nat {
    index * INODE_SIZE + table * BLOCK_SIZE
  }

  function SuperOf(bytes: seq<Byte>): SuperBlock {
    var s := Slice(bytes, SUPER_BLOCK_NO * BLOCK_SIZE, SUPER_SIZE);
    if |s| == SUPER_SIZE then DecodeSuper(s) else NO_SUPER
  }

  function DescOf(bytes: seq<Byte>, group: nat): GroupDesc {
    var s := Slice(bytes, DescOffset(group), DESC_SIZE);
    if |s| == DESC_SIZE then DecodeDesc(s) else NO_DESC
  }

  function InodeOf(bytes: seq<Byte>, table: nat, index: nat): (n: Inode)
    ensures n.Fits()
  {
    var s := Slice(bytes, InodeOffset(table, index), INODE_SIZE);
    if |s| == INODE_SIZE then DecodeInode(s) else EmptyInode()
  }

  // ----- where the kernel looks for them

  const SECTORS_PER_BLOCK: nat := 2

  /** The buffer of the bio for a sector holds the 4096 bytes from its base sector on. */
  function BioBuffer(bytes: seq<Byte>, sector: nat): seq<Byte> {
    Slice(bytes, sector / SECTORS_PER_BIO * SECTORS_PER_BIO * SECTOR_SIZE, SECTORS_PER_BIO * SECTOR_SIZE)
  }

  /** `n` bytes from `bio_data(bio) + at`, with the iterator at the sector. */
  function BioData(bytes: seq<Byte>, sector: nat, at: nat, n: nat): seq<Byte> {
    Slice(BioBuffer(bytes, sector), sector % SECTORS_PER_BIO * SECTOR_SIZE + at, n)
  }

  /** Images come in whole bios. */
  ghost predicate WholeBios(bytes: seq<Byte>) {
    |bytes| % (SECTORS_PER_BIO * SECTOR_SIZE) == 0
  }

  /** The bio, its iterator and an offset amount to a linear offset, as long as they stay in the buffer. */
  lemma BioIsLinear(bytes: seq<Byte>, sector: nat, at: nat, n: nat)
    requires WholeBios(bytes) && sector % SECTORS_PER_BIO * SECTOR_SIZE + at + n <= SECTORS_PER_BIO * SECTOR_SIZE
    requires sector * SECTOR_SIZE + at + n <= |bytes| && n > 0
    ensures BioData(bytes, sector, at, n) == Slice(bytes, sector * SECTOR_SIZE + at, n)
  {
    var base := sector / SECTORS_PER_BIO * SECTORS_PER_BIO * SECTOR_SIZE;
    assert base + SECTORS_PER_BIO * SECTOR_SIZE <= |bytes|;
    var o := sector % SECTORS_PER_BIO * SECTOR_SIZE + at;
    SliceOfSlice(bytes, base, SECTORS_PER_BIO * SECTOR_SIZE, o, n);
  }

  /** get_super_block. */
  function KernelSuper(bytes: seq<Byte>): SuperBlock {
    var s := BioData(bytes, SUPER_BLOCK_NO * SECTORS_PER_BLOCK, 0, SUPER_SIZE);
    if |s| == SUPER_SIZE then DecodeSuper(s) else NO_SUPER
  }

  /** get_bg_inode_table. */
  function KernelInodeTable(bytes: seq<Byte>, group: nat): nat {
    var offset := DESC_SIZE * group;
    var sector := offset % BLOCK_SIZE / SECTOR_SIZE;
    var block := offset / BLOCK_SIZE + SUPER_BLOCK_NO + 1;
    var s := BioData(bytes, block * SECTORS_PER_BLOCK + sector, offset % SECTOR_SIZE, DESC_SIZE);
    if |s| == DESC_SIZE then DecodeDesc(s).inodeTable else 0
  }

  /** inode_read. */
  function KernelInode(bytes: seq<Byte>, group: nat, index: nat): (n: Inode)
    ensures n.Fits()
  {
    var offset := INODE_SIZE * index;
    var sector := offset % BLOCK_SIZE / SECTOR_SIZE;
    var offsetInSector := offset % BLOCK_SIZE % SECTOR_SIZE;
    var block := KernelInodeTable(bytes, group) + offset / BLOCK_SIZE;
    var s := BioData(bytes, block * SECTORS_PER_BLOCK + sector, offsetInSector, INODE_SIZE);
    if |s| == INODE_SIZE then DecodeInode(s) else EmptyInode()
  }

  /** The buffer that block_read delivers. */
  function KernelBlock(bytes: seq<Byte>, block: nat): seq<Byte> {
    BioData(bytes, block * SECTORS_PER_BLOCK, 0, BLOCK_SIZE)
  }

  lemma SuperAgrees(bytes: seq<Byte>)
    requires WholeBios(bytes) && |bytes| > 0
    ensures KernelSuper(bytes) == SuperOf(bytes)
  {
    BioIsLinear(bytes, SUPER_BLOCK_NO * SECTORS_PER_BLOCK, 0, SUPER_SIZE);
  }

  /** An offset is so many blocks, a sector of the last, and the rest. */
  lemma SplitOffset(block: nat, offset: nat)
    ensures var sector := (block + offset / BLOCK_SIZE) * SECTORS_PER_BLOCK + offset % BLOCK_SIZE / SECTOR_SIZE;
            sector * SECTOR_SIZE + offset % SECTOR_SIZE == block * BLOCK_SIZE + offset
    ensures offset % BLOCK_SIZE % SECTOR_SIZE == offset % SECTOR_SIZE
  {
    var q, o := offset / BLOCK_SIZE, offset % BLOCK_SIZE;
    assert offset == q * BLOCK_SIZE + o && o == o / SECTOR_SIZE * SECTOR_SIZE + o % SECTOR_SIZE;
    assert o % SECTOR_SIZE == offset % SECTOR_SIZE;
  }

  /** What lies inside one sector of the block at an offset is read at its linear offset. */
  lemma SectorIsLinear(bytes: seq<Byte>, block: nat, offset: nat, n: nat)
    requires WholeBios(bytes) && n > 0 && offset % SECTOR_SIZE + n <= SECTOR_SIZE
    requires block * BLOCK_SIZE + offset + n <= |bytes|
    ensures var sector := (block + offset / BLOCK_SIZE) * SECTORS_PER_BLOCK + offset % BLOCK_SIZE / SECTOR_SIZE;
            BioData(bytes, sector, offset % SECTOR_SIZE, n) == Slice(bytes, block * BLOCK_SIZE + offset, n)
  {
    SplitOffset(block, offset);
    var sector := (block + offset / BLOCK_SIZE) * SECTORS_PER_BLOCK + offset % BLOCK_SIZE / SECTOR_SIZE;
    BioIsLinear(bytes, sector, offset % SECTOR_SIZE, n);
  }

  /** Entries of a size that divides a sector do not straddle sectors. */
  lemma DescInSector(k: nat)
    ensures DESC_SIZE * k % SECTOR_SIZE + DESC_SIZE <= SECTOR_SIZE
  {
  }

  lemma InodeInSector(k: nat)
    ensures INODE_SIZE * k % SECTOR_SIZE + INODE_SIZE <= SECTOR_SIZE
  {
  }

  lemma InodeTableAgrees(bytes: seq<Byte>, group: nat)
    requires WholeBios(bytes) && DescOffset(group) + DESC_SIZE <= |bytes|
    ensures KernelInodeTable(bytes, group) == DescOf(bytes, group).inodeTable
  {
    DescInSector(group);
    SectorIsLinear(bytes, SUPER_BLOCK_NO + 1, DESC_SIZE * group, DESC_SIZE);
  }

  lemma InodeAgrees(bytes: seq<Byte>, group: nat, index: nat)
    requires WholeBios(bytes) && DescOffset(group) + DESC_SIZE <= |bytes|
    requires InodeOffset(DescOf(bytes, group).inodeTable, index) + INODE_SIZE <= |bytes|
    ensures KernelInode(bytes, group, index) == InodeOf(bytes, DescOf(bytes, group).inodeTable, index)
  {
    InodeTableAgrees(bytes, group);
    InodeLinear(bytes, DescOf(bytes, group).inodeTable, index);
  }

  /** An inode lies inside one sector of its block, at its linear offset. */
  lemma InodeLinear(bytes: seq<Byte>, table: nat, index: nat)
    requires WholeBios(bytes) && InodeOffset(table, index) + INODE_SIZE <= |bytes|
    ensures var offset := INODE_SIZE * index;
            var sector := (table + offset / BLOCK_SIZE) * SECTORS_PER_BLOCK + offset % BLOCK_SIZE / SECTOR_SIZE;
            BioData(bytes, sector, offset % BLOCK_SIZE % SECTOR_SIZE, INODE_SIZE)
            == Slice(bytes, InodeOffset(table, index), INODE_SIZE)
  {
    InodeInSector(index);
    SplitOffset(table, INODE_SIZE * index);
    SectorIsLinear(bytes, table, INODE_SIZE * index, INODE_SIZE);
  }

  lemma BlockAgrees(bytes: seq<Byte>, block: nat)
    requires WholeBios(bytes) && HasBlock(bytes, block)
    ensures KernelBlock(bytes, block) == BlockAt(bytes, block)
  {
    BioIsLinear(bytes, block * SECTORS_PER_BLOCK, 0, BLOCK_SIZE);
  }
}
