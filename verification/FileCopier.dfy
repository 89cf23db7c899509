/** Copying a file into the root directory of an image. */
module FileCopier {
  import opened Units
  import opened Bytes
  import opened Bitmaps
  import opened DirectoryBlock
  import opened DirectoryFile
  import opened ImageFile
  import opened DiskFormat
  import opened Volume
  import opened FileTree
  import opened BlockGrowth
  import opened ImageWriter
  import opened VolumeFiles
  import opened SpaceLeft
  import opened SpaceNeeded
  import opened RootDirectory
  import opened FileData
  import opened FileWriter

  /** The files of a volume by name. */
  type Files = map<seq<Byte>, File>

  /** The directory names exactly the files, and the two directory entries. */
  ghost predicate NamesOk(rs: seq<Record>, files: Files) {
    && (forall n :: Names(rs, n) <==> n in files || n == DOT || n == DOT_DOT)
    && (forall n :: n in files ==> n != DOT && n != DOT_DOT && Find(rs, n) == files[n].ino)
    && Find(rs, DOT) == ROOT_INO && Find(rs, DOT_DOT) == ROOT_INO
    && HaveInodes(rs)
  }

  /** No record has inode 0, which would read as no record. */
  ghost predicate HaveInodes(rs: seq<Record>) {
    forall i :: 0 <= i < |rs| ==> rs[i].inode != 0
  }

  /** Files share neither inodes nor blocks, among themselves or with the directory. */
  ghost predicate FilesApart(dir: seq<nat>, files: Files) {
    && (forall n :: n in files ==> files[n].ino != ROOT_INO && files[n].AllBlocks() !! AsSet(dir))
    && (forall n, k :: n in files && k in files && n != k ==>
          files[n].ino != files[k].ino && files[n].AllBlocks() !! files[k].AllBlocks())
  }

  /** Keeps `VolumeOk` closed: what it says is in view only where a key is stated. */
  ghost predicate VolumeKey(k: int) {
    true
  }

  ghost predicate VolumeOkBody(bytes: seq<Byte>, g: Geometry, dir: seq<nat>, files: Files) {
    && DirOk(bytes, g, dir) && NamesOk(DirRecords(bytes, dir), files) && FilesApart(dir, files)
    && forall n :: n in files ==> FileOk(bytes, g, files[n])
  }

  /** The image is a volume with these directory blocks and these files. */
  ghost predicate VolumeOk(bytes: seq<Byte>, g: Geometry, dir: seq<nat>, files: Files) {
    forall k {:trigger VolumeKey(k)} :: VolumeKey(k) ==> VolumeOkBody(bytes, g, dir, files)
  }

  lemma VolumeMeans(bytes: seq<Byte>, g: Geometry, dir: seq<nat>, files: Files)
    requires VolumeOk(bytes, g, dir, files)
    ensures VolumeOkBody(bytes, g, dir, files)
  {
    assert VolumeKey(0);
  }

  // ----- names

  /** A fresh name, inserted anywhere, resolves to its inode; all other names resolve as before. */
  lemma InsertedNames(rs: seq<Record>, rs': seq<Record>, r: Record, name: seq<Byte>)
    requires InsertedInto(rs, rs', r) && !Names(rs, r.name)
    ensures Names(rs', name) <==> Names(rs, name) || name == r.name
    ensures Find(rs', name) == if name == r.name then r.inode else Find(rs, name)
  {
    var xs, ys :| InsertedBetween(xs, ys, rs, rs', r);
    NamesSplit(xs, ys, name);
    NamesSplit(xs, [r] + ys, name);
    NamesSplit([r], ys, name);
    NamesSplit(xs, ys, r.name);
    NamesOne(r, name);
    assert xs + [r] + ys == xs + ([r] + ys);
    FindSplit(xs, ys, name);
    FindSplit(xs, [r] + ys, name);
    FindSplit([r], ys, name);
  }

  lemma NamesOne(r: Record, name: seq<Byte>)
    ensures Names([r], name) <==> r.name == name
    ensures r.name == name ==> Find([r], name) == r.inode
  {
    if r.name == name {
      assert [r][0].name == name;
    }
  }

  lemma NamesSplit(xs: seq<Record>, ys: seq<Record>, name: seq<Byte>)
    ensures Names(xs + ys, name) <==> Names(xs, name) || Names(ys, name)
  {
    if Names(xs, name) {
      var i :| 0 <= i < |xs| && xs[i].name == name;
      assert (xs + ys)[i].name == name;
    }
    if Names(ys, name) {
      var i :| 0 <= i < |ys| && ys[i].name == name;
      assert (xs + ys)[|xs| + i].name == name;
    }
  }

  lemma InsertedNumbered(rs: seq<Record>, rs': seq<Record>, r: Record)
    requires InsertedInto(rs, rs', r) && HaveInodes(rs) && r.inode != 0
    ensures HaveInodes(rs')
  {
    var xs, ys :| InsertedBetween(xs, ys, rs, rs', r);
    forall i | 0 <= i < |rs'|
      ensures rs'[i].inode != 0
    {
      if i < |xs| {
        assert rs'[i] == rs[i];
      } else if i > |xs| {
        assert rs'[i] == rs[i - 1];
      }
    }
  }

  lemma NewName(rs: seq<Record>, rs': seq<Record>, files: Files, name: seq<Byte>, f: File, r: Record)
    requires NamesOk(rs, files) && InsertedInto(rs, rs', r) && r.name == name && r.inode == f.ino && !Names(rs, name)
    requires r.inode != 0
    ensures NamesOk(rs', files[name := f])
  {
    InsertedNumbered(rs, rs', r);
    forall n
      ensures Names(rs', n) <==> Names(rs, n) || n == name
      ensures Find(rs', n) == if n == name then f.ino else Find(rs, n)
    {
      InsertedNames(rs, rs', r, n);
    }
  }

  // ----- looking a name up, as mkfs does

  /** get_entry_from_dir for the root directory, as far as its direct blocks go. */
  method GetEntryFromDir(m: Mkfs, name: seq<Byte>, ghost dir: seq<nat>) returns (found: bool)
    requires m.Synced() && DirOk(m.img.bytes, m.g, dir) && LegalName(name)
    modifies m.img`pos
    ensures found <==> Names(DirRecords(m.img.bytes, dir), name)
  {
    DirMeans(m.img.bytes, m.g, dir);
    var inode := m.GetInode(ROOT_INO);
    found := false;
    var i := 0;
    while i < DIRECT_BLOCKS && !found && inode.blocks[i] != 0
      invariant i <= |dir|
      invariant if found then Names(DirRecords(m.img.bytes, dir), name)
                else !Names(DirRecords(m.img.bytes, dir[..i]), name)
      decreases DIRECT_BLOCKS - i, !found
    {
      BlockLookup(m.img.bytes, m.g, dir, i, name);
      var h;
      found, h := GetEntryFromBlock(m.img, inode.blocks[i], name);
      i := i + 1;
    }
    if !found {
      PointersEnd(m.img.bytes, m.g, dir, i);
      assert dir[..i] == dir;
    }
  }

  lemma PointersEnd(bytes: seq<Byte>, g: Geometry, dir: seq<nat>, i: nat)
    requires DirOk(bytes, g, dir) && i <= |dir|
    ensures |dir| <= DIRECT_BLOCKS && (i == DIRECT_BLOCKS || RootInode(dir).blocks[i] == 0 ==> i == |dir|)
  {
    DirMeans(bytes, g, dir);
    if i < |dir| {
      assert DirBlock(bytes, g, dir[i]);
      DataIsNumbered(bytes, g, dir[i]);
    }
  }

  lemma BlockLookup(bytes: seq<Byte>, g: Geometry, dir: seq<nat>, i: nat, name: seq<Byte>)
    requires DirOk(bytes, g, dir) && |dir| <= DIRECT_BLOCKS && i <= |dir| && i < DIRECT_BLOCKS &&
             RootInode(dir).blocks[i] != 0
    ensures i < |dir| && RootInode(dir).blocks[i] == dir[i] && DirBlock(bytes, g, dir[i]) && HasBlock(bytes, dir[i])
    ensures Names(Records(BlockAt(bytes, dir[i]), 0), name) ==> Names(DirRecords(bytes, dir), name)
    ensures Names(DirRecords(bytes, dir[..i + 1]), name) <==>
            Names(DirRecords(bytes, dir[..i]), name) || Names(Records(BlockAt(bytes, dir[i]), 0), name)
  {
    DirMeans(bytes, g, dir);
    assert DirBlock(bytes, g, dir[i]);
    DataIsNumbered(bytes, g, dir[i]);
    BlockNames(bytes, dir, i, name);
  }

  /** The names of a block among those of the directory. */
  lemma BlockNames(bytes: seq<Byte>, dir: seq<nat>, i: nat, name: seq<Byte>)
    requires i < |dir|
    ensures Names(Records(BlockAt(bytes, dir[i]), 0), name) ==> Names(DirRecords(bytes, dir), name)
    ensures Names(DirRecords(bytes, dir[..i + 1]), name) <==>
            Names(DirRecords(bytes, dir[..i]), name) || Names(Records(BlockAt(bytes, dir[i]), 0), name)
  {
    DirSplit(bytes, dir, i);
    NamesSplit(DirRecords(bytes, dir[..i]), Records(BlockAt(bytes, dir[i]), 0), name);
    NamesSplit(DirRecords(bytes, dir[..i]) + Records(BlockAt(bytes, dir[i]), 0), DirRecords(bytes, dir[i + 1..]), name);
    assert dir[..i + 1] == dir[..i] + [dir[i]];
    DirJoin(bytes, dir[..i], [dir[i]]);
    DirOne(bytes, dir[i]);
  }

  // ----- a new file

  /** The inode of an empty regular file is that of a file without bytes. */
  lemma EmptyFile(bytes: seq<Byte>, g: Geometry, ino: nat)
    requires g.IsInode(ino) && InodeUsed(bytes, g, ino) && InodeNo(bytes, g, ino) == FreshInode(FT_REG_FILE)
    ensures FileOk(bytes, g, File(ino, [], [], []))
  {
    assert Pointers([], []) == NoPointers(INODE_BLOCKS);
    assert File(ino, [], [], []).DataBlocks() == [];
    assert FileOkBody(bytes, g, File(ino, [], [], []));
  }

  /** Filling in size and pointers of the inode makes the planted trees a file. */
  lemma FileStored(b: seq<Byte>, c: seq<Byte>, d: seq<Byte>, g: Geometry, f: File)
    requires Filed(b, c, g, f) && |f.DataBlocks()| == BlocksFor(|f.data|) && DirectFirst(f)
    requires g.IsInode(f.ino) && InodeUsed(b, g, f.ino) && Touches(c, d, g, {}, {f.ino})
    requires InodeNo(d, g, f.ino) == Inode(S_IFREG, Zeros(22), |f.data|, Pointers(f.direct, f.indirect))
    ensures FileOk(d, g, f)
  {
    FiledMeans(b, c, g, f);
    GrownMeans(b, c, g, f.AllBlocks());
    TouchesMeans(c, d, g, {}, {f.ino});
    FiledBlocksKept(c, d, g, f);
    forall x | x in f.AllBlocks()
      ensures g.IsData(x) && BlockUsed(d, g, x)
    {
      DataIsNumbered(b, g, x);
    }
    GroupMeans(b, g);
    assert FileOkBody(d, g, f);
  }

  lemma FiledBlocksKept(c: seq<Byte>, d: seq<Byte>, g: Geometry, f: File)
    requires Touches(c, d, g, {}, {f.ino}) && forall x :: x in f.AllBlocks() ==> g.IsData(x)
    requires StoredAll(c, f.direct, 0) && StoredByLevel(c, f.indirect) && HoldChunks(c, f.DataBlocks(), f.data, 0)
    ensures StoredAll(d, f.direct, 0) && StoredByLevel(d, f.indirect) && HoldChunks(d, f.DataBlocks(), f.data, 0)
  {
    TouchesMeans(c, d, g, {}, {f.ino});
    StoredAllKept(c, d, f.direct, 0);
    forall i | 0 <= i < |f.indirect|
      ensures Stored(d, f.indirect[i], i + 1)
    {
      forall b | b in Blocks(f.indirect[i])
        ensures b in f.AllBlocks()
      {
        EachInBlocksOf(f.indirect, i, b);
      }
      StoredKept(c, d, f.indirect[i], i + 1);
    }
    forall i | 0 <= i < |f.DataBlocks()|
      ensures HoldsChunk(d, f.DataBlocks()[i], f.data, i)
    {
      DataBlocksAreBlocks(f, f.DataBlocks()[i]);
      assert HoldsChunk(c, f.DataBlocks()[i], f.data, 0 + i);
      DataIsNumbered(c, g, f.DataBlocks()[i]);
      ChunkKept(c, d, f.DataBlocks()[i], f.data, i);
    }
  }

  /**
   A new file makes the volume one with that file: nothing of the other files is among what was
   touched, because what they use was in use before and what was taken was free.
   */
  lemma VolumeMore(a: seq<Byte>, b: seq<Byte>, e: seq<Byte>, g: Geometry, dir: seq<nat>, dir': seq<nat>,
                   files: Files, name: seq<Byte>, f: File)
    requires VolumeOk(a, g, dir, files) && !Names(DirRecords(a, dir), name)
    requires Added(a, b, g, dir, dir', Record(f.ino, FT_REG_FILE, name))
    requires Touches(b, e, g, f.AllBlocks(), {f.ino}) && FileOk(e, g, f)
    requires forall x :: x in f.AllBlocks() ==> g.IsData(x) && !BlockUsed(b, g, x)
    ensures VolumeOk(e, g, dir', files[name := f]) && OthersKept(a, e, g)
  {
    VolumeMeans(a, g, dir, files);
    var r := Record(f.ino, FT_REG_FILE, name);
    DirMeans(a, g, dir);
    NewDirKept(b, e, g, dir', f);
    NewName(DirRecords(a, dir), DirRecords(b, dir'), files, name, f, r);
    TouchesThen(a, b, e, g, AsSet(dir'), {ROOT_INO, f.ino}, f.AllBlocks(), {f.ino});
    assert {ROOT_INO, f.ino} + {f.ino} == {ROOT_INO, f.ino};
    OtherFiles(a, b, e, g, dir, dir', files, f, r);
    StillApart(dir, dir', files, name, f);
    OtherGroups(a, e, g, AsSet(dir') + f.AllBlocks(), {ROOT_INO, f.ino});
    assert VolumeOkBody(e, g, dir', files[name := f]);
  }

  /** What the other files use was in use before, and what was taken was free: they are untouched. */
  lemma OtherFiles(a: seq<Byte>, b: seq<Byte>, e: seq<Byte>, g: Geometry, dir: seq<nat>, dir': seq<nat>,
                   files: Files, f: File, r: Record)
    requires GroupOk(a, g) && FilesApart(dir, files) && forall n :: n in files ==> FileOk(a, g, files[n])
    requires Added(a, b, g, dir, dir', r) && r.inode == f.ino
    requires Touches(a, e, g, AsSet(dir') + f.AllBlocks(), {ROOT_INO, f.ino})
    requires forall x :: x in f.AllBlocks() ==> g.IsData(x) && !BlockUsed(b, g, x)
    ensures forall n :: n in files ==> FileOk(e, g, files[n]) && Untouched(files[n], dir', f)
  {
    forall n | n in files
      ensures FileOk(e, g, files[n]) && Untouched(files[n], dir', f)
    {
      OtherFile(a, b, g, dir, dir', f, files[n], r);
      FileKept(a, e, g, files[n], AsSet(dir') + f.AllBlocks(), {ROOT_INO, f.ino});
    }
  }

  /** The descriptors of the other groups, and everything behind the first group, are as they were. */
  ghost predicate OthersKept(before: seq<Byte>, after: seq<Byte>, g: Geometry) {
    Same(before, after, DescOffset(1), g.blockBitmap * BLOCK_SIZE) && Same(before, after, g.Beyond(), |before|)
  }

  lemma OtherGroups(before: seq<Byte>, after: seq<Byte>, g: Geometry, blocks: set<nat>, inos: set<nat>)
    requires Touches(before, after, g, blocks, inos)
    ensures OthersKept(before, after, g)
  {
    TouchesMeans(before, after, g, blocks, inos);
  }

  ghost predicate Untouched(o: File, dir': seq<nat>, f: File) {
    o.AllBlocks() !! AsSet(dir') && o.AllBlocks() !! f.AllBlocks() && o.ino != ROOT_INO && o.ino != f.ino
  }

  lemma OtherFile(a: seq<Byte>, b: seq<Byte>, g: Geometry, dir: seq<nat>, dir': seq<nat>, f: File, o: File, r: Record)
    requires FileOk(a, g, o) && o.AllBlocks() !! AsSet(dir) && o.ino != ROOT_INO && GroupOk(a, g)
    requires Added(a, b, g, dir, dir', r) && r.inode == f.ino
    requires forall x :: x in f.AllBlocks() ==> g.IsData(x) && !BlockUsed(b, g, x)
    ensures Untouched(o, dir', f)
  {
    FileMeans(a, g, o);
    TouchesMeans(a, b, g, AsSet(dir'), {ROOT_INO, r.inode});
    forall x | x in o.AllBlocks()
      ensures x !in AsSet(dir') && x !in f.AllBlocks()
    {
      DataIsNumbered(a, g, x);
      assert x in AsSet(dir) <==> x in dir;
    }
  }

  lemma NewDirKept(b: seq<Byte>, e: seq<Byte>, g: Geometry, dir': seq<nat>, f: File)
    requires DirOk(b, g, dir') && Touches(b, e, g, f.AllBlocks(), {f.ino}) && f.ino != ROOT_INO
    requires forall x :: x in f.AllBlocks() ==> g.IsData(x) && !BlockUsed(b, g, x)
    ensures DirOk(e, g, dir') && DirRecords(e, dir') == DirRecords(b, dir') && f.AllBlocks() !! AsSet(dir')
  {
    DirBlocksAreData(b, g, dir');
    DirKept(b, e, g, dir', f.AllBlocks(), {f.ino});
  }

  lemma StillApart(dir: seq<nat>, dir': seq<nat>, files: Files, name: seq<Byte>, f: File)
    requires FilesApart(dir, files) && name !in files && f.ino != ROOT_INO && f.AllBlocks() !! AsSet(dir')
    requires forall n :: n in files ==> Untouched(files[n], dir', f)
    ensures FilesApart(dir', files[name := f])
  {
  }

  // ----- write_file

  /** has_enough_space, with what its loops come to. */
  predicate HasEnoughSpace(size: nat, freeBlocks: nat) {
    Asked(BlocksFor(size)) <= freeBlocks
  }

  /** What the direct blocks and one index block reach, and what a second index block adds to that. */
  const ONE_INDEX: nat := DIRECT_BLOCKS + 256
  const TWO_INDEXES: nat := ONE_INDEX + 256

  /** The blocks a file of `n` data blocks takes, index blocks included. */
  lemma FileBlocksAre(n: nat)
    requires n <= WORD / BLOCK_SIZE
    ensures n <= DIRECT_BLOCKS ==> FileBlocks(n) == n
    ensures DIRECT_BLOCKS < n <= ONE_INDEX ==> FileBlocks(n) == n + 1
    ensures ONE_INDEX < n <= TWO_INDEXES ==> FileBlocks(n) == n + 3
    ensures n > TWO_INDEXES ==> FileBlocks(n) >= n + 4
  {
    Capacities();
    if n <= DIRECT_BLOCKS {
      assert LevelsBlocks(1, 0) == 0;
    } else {
      FirstLevel(n - DIRECT_BLOCKS);
      if n <= ONE_INDEX {
        assert LevelsBlocks(2, 0) == 0;
      } else {
        SecondLevel(n - ONE_INDEX);
      }
    }
  }

  lemma FirstLevel(n: nat)
    requires n > 0
    ensures var first := Min(256, n); LevelsBlocks(1, n) == 1 + first + LevelsBlocks(2, n - first)
  {
    Capacities();
    var first := Min(256, n);
    assert TreeBlocks(1, first) == 1 + first;
  }

  lemma SecondLevel(n: nat)
    requires 0 < n <= Capacity(3)
    ensures n <= 256 ==> LevelsBlocks(2, n) == n + 2
    ensures n > 256 ==> LevelsBlocks(2, n) >= n + 3
  {
    Capacities();
    var below := Min(Capacity(2), n);
    assert LevelsBlocks(2, n) == 1 + BelowBlocks(2, below) + LevelsBlocks(3, n - below);
    OneTree(below);
    if n <= 256 {
      assert BelowBlocks(2, 0) == 0 && LevelsBlocks(3, 0) == 0;
    } else {
      OneTree(below - 256);
      ThirdLevel(n - below);
    }
  }

  lemma OneTree(n: nat)
    requires n > 0
    ensures var first := Min(256, n); BelowBlocks(2, n) == 1 + first + BelowBlocks(2, n - first)
  {
    Capacities();
    var first := Min(256, n);
    assert TreeBlocks(1, first) == 1 + first;
  }

  lemma ThirdLevel(n: nat)
    requires n <= Capacity(3)
    ensures LevelsBlocks(3, n) >= n
  {
    if n > 0 {
      assert LevelsBlocks(3, n) == TreeBlocks(3, n) + LevelsBlocks(4, 0);
    }
  }

  /**
   The check lets a file pass for which the program then exits: with `free` blocks free in the first group,
   where all blocks are taken from, and `rest` in the others, which the check counts as well.
   */
  predicate Misled(size: nat, free: nat, rest: nat) {
    size < WORD && HasEnoughSpace(size, free + rest) && FileBlocks(BlocksFor(size)) > free
  }

  /** Files for which the check can be relied on, by their blocks and the blocks free in the other groups. */
  predicate Checked(n: nat, rest: nat) {
    || n == 0
    || (n < DIRECT_BLOCKS && rest <= 3)
    || (n == DIRECT_BLOCKS && rest == 0)
    || (DIRECT_BLOCKS < n <= ONE_INDEX && rest <= 2)
    || (ONE_INDEX < n <= TWO_INDEXES && rest == 0)
  }

  /** The check misleads for no number of free blocks in the first group, or the file is one of the others. */
  lemma SpaceCheck(size: nat, rest: nat)
    requires size < WORD
    ensures (forall free: nat :: !Misled(size, free, rest)) <==> Checked(BlocksFor(size), rest)
  {
    var n := BlocksFor(size);
    FileBlocksAre(n);
    if !Checked(n, rest) {
      assert Misled(size, if Asked(n) >= rest then Asked(n) - rest else 0, rest);
    }
  }

  /** Every file of one block, with the first group full and four blocks free elsewhere. */
  lemma OneBlockMisleads(size: nat)
    requires BlocksFor(size) == 1
    ensures Misled(size, 0, 4)
  {
    FileBlocksAre(BlocksFor(size));
  }

  /** Every file of 534 blocks, with 537 of them free in a single group. */
  lemma SecondIndexMisleads(size: nat)
    requires BlocksFor(size) == 534
    ensures Misled(size, 537, 0)
  {
    FileBlocksAre(BlocksFor(size));
  }

  /**
   `Written`: the file is there. `NameTaken`: there was an entry of that name. `Refused`: the entry was
   made, but the space check failed and the file stays empty. `Exits`: no block or inode was left, and
   the program ended. `NoRoom`: the direct blocks of the directory are full.
   */
  datatype Result = Written | NameTaken | Refused | Exits | NoRoom

  /** What write_file comes to once the entry is made, with `rest` blocks free in the other groups. */
  function FillOutcome(s: Space, rest: nat, size: nat): Result {
    if !HasEnoughSpace(size, s.blocks + rest) then Refused
    else if size < WORD && FileBlocks(BlocksFor(size)) <= s.blocks then Written
    else Result.Exits
  }

  function AfterFill(s: Space, rest: nat, size: nat): Space
    requires FillOutcome(s, rest, size) != Result.Exits
  {
    if FillOutcome(s, rest, size) == Written then s.(blocks := s.blocks - FileBlocks(BlocksFor(size))) else s
  }

  /** After the entry was made, the program exits exactly where the check misleads. */
  lemma ExitsIfMisled(s: Space, rest: nat, size: nat)
    requires size < WORD
    ensures FillOutcome(s, rest, size) == Result.Exits <==> Misled(size, s.blocks, rest)
  {
  }

  /** What write_file comes to for a new name of that length. */
  function CopyOutcome(s: Space, rest: nat, len: nat, size: nat): Result {
    if EntryFits(s, len) then FillOutcome(AfterEntry(s, len), rest, size)
    else if s.inodes > 0 && FirstFit(s.rooms, len) == |s.rooms| == DIRECT_BLOCKS then Result.NoRoom
    else Result.Exits
  }

  function AfterCopy(s: Space, rest: nat, len: nat, size: nat): Space
    requires CopyOutcome(s, rest, len, size) in {Written, Refused}
  {
    AfterFill(AfterEntry(s, len), rest, size)
  }

  /** A file of one byte, for which there is an inode and room in the directory, but no block: the entry is made. */
  lemma RefusedAfterEntry()
    ensures var s := Space(0, 1, [BLOCK_SIZE]);
            EntryFits(s, 1) && CopyOutcome(s, 0, 1, 1) == Refused && AfterCopy(s, 0, 1, 1) == AfterEntry(s, 1)
  {
    assert FirstFit([BLOCK_SIZE], 1) == 0;
  }

  /** write_file for a destination in the root directory. */
  method WriteFile(m: Mkfs, name: seq<Byte>, data: seq<Byte>, ghost dir: seq<nat>, ghost files: Files)
    returns (res: Result, ghost dir': seq<nat>, ghost f: File)
    requires m.Synced() && VolumeOk(m.img.bytes, m.g, dir, files) && LegalName(name) && |data| < WORD
    modifies m`super, m.img`pos, m.img`bytes
    ensures var s := old(SpaceOf(m.img.bytes, dir));
            && (res == if name in files || name == DOT || name == DOT_DOT then NameTaken
                       else CopyOutcome(s, m.restBlocks, |name|, |data|))
            && (res == Written || res == Refused ==>
                  SpaceOf(m.img.bytes, dir') == AfterCopy(s, m.restBlocks, |name|, |data|))
    ensures res == NameTaken ==> m.img.bytes == old(m.img.bytes) && m.super == old(m.super)
    ensures res == Written || res == Refused ==>
      && m.Synced() && SuperOf(m.img.bytes) == m.super
      && VolumeOk(m.img.bytes, m.g, dir', files[name := f]) && f.data == (if res == Written then data else [])
      && OthersKept(old(m.img.bytes), m.img.bytes, m.g)
  {
    dir', f := dir, File(0, data, [], []);
    VolumeMeans(m.img.bytes, m.g, dir, files);
    var found := GetEntryFromDir(m, name, dir);
    if found {
      res := NameTaken;
    } else {
      res, dir', f := CreateAndFill(m, name, data, dir, files);
    }
  }

  method CreateAndFill(m: Mkfs, name: seq<Byte>, data: seq<Byte>, ghost dir: seq<nat>, ghost files: Files)
    returns (res: Result, ghost dir': seq<nat>, ghost f: File)
    requires m.Synced() && VolumeOk(m.img.bytes, m.g, dir, files) && LegalName(name) && |data| < WORD
    requires !Names(DirRecords(m.img.bytes, dir), name)
    modifies m`super, m.img`pos, m.img`bytes
    ensures var s := old(SpaceOf(m.img.bytes, dir));
            && res == CopyOutcome(s, m.restBlocks, |name|, |data|)
            && (res == Written || res == Refused ==>
                  SpaceOf(m.img.bytes, dir') == AfterCopy(s, m.restBlocks, |name|, |data|))
    ensures res == Written || res == Refused ==>
      && m.Synced() && SuperOf(m.img.bytes) == m.super
      && VolumeOk(m.img.bytes, m.g, dir', files[name := f]) && f.data == (if res == Written then data else [])
      && OthersKept(old(m.img.bytes), m.img.bytes, m.g)
  {
    ghost var a := m.img.bytes;
    VolumeMeans(a, m.g, dir, files);
    var out, ino;
    out, ino, dir' := WriteEntryToDir(m, name, FT_REG_FILE, dir);
    f := File(ino, [], [], []);
    if out == Outcome.Exits {
      res := Result.Exits;
    } else if out == Outcome.NoRoom {
      res := Result.NoRoom;
    } else {
      res, f := FillOrRefuse(m, name, data, ino, a, dir, dir', files);
    }
  }

  /** write_file from the check on. */
  method FillOrRefuse(m: Mkfs, name: seq<Byte>, data: seq<Byte>, ino: nat, ghost a: seq<Byte>, ghost dir: seq<nat>,
                      ghost dir': seq<nat>, ghost files: Files)
    returns (res: Result, ghost f: File)
    requires m.Synced() && SuperOf(m.img.bytes) == m.super && VolumeOk(a, m.g, dir, files) && LegalName(name) &&
             |data| < WORD
    requires Added(a, m.img.bytes, m.g, dir, dir', Record(ino, FT_REG_FILE, name)) && !Names(DirRecords(a, dir), name)
    modifies m`super, m.img`pos, m.img`bytes
    ensures res == FillOutcome(old(SpaceOf(m.img.bytes, dir')), m.restBlocks, |data|)
    ensures res == Written || res == Refused ==>
      && m.Synced() && SuperOf(m.img.bytes) == m.super
      && VolumeOk(m.img.bytes, m.g, dir', files[name := f]) && f.data == (if res == Written then data else [])
      && OthersKept(a, m.img.bytes, m.g)
      && SpaceOf(m.img.bytes, dir') == AfterFill(old(SpaceOf(m.img.bytes, dir')), m.restBlocks, |data|)
  {
    ghost var b := m.img.bytes;
    f := File(ino, [], [], []);
    NewInodeOk(a, b, m.g, dir, dir', Record(ino, FT_REG_FILE, name));
    var inode := m.GetInode(ino);
    var required := RequiredBlocks(|data|);
    if required > m.super.freeBlocks {
      EmptyFile(b, m.g, ino);
      TouchesNothing(b, m.g);
      TouchesWiden(b, b, m.g, {}, {}, f.AllBlocks(), {ino});
      VolumeMore(a, b, b, m.g, dir, dir', files, name, f);
      res := Refused;
    } else {
      var ok;
      ok, f := FillFile(m, ino, inode, data);
      res := if ok then Written else Result.Exits;
      if ok {
        VolumeMore(a, b, m.img.bytes, m.g, dir, dir', files, name, f);
        FilledRooms(b, m.img.bytes, m.g, dir', f);
      }
    }
  }

  lemma FilledRooms(b: seq<Byte>, e: seq<Byte>, g: Geometry, dir': seq<nat>, f: File)
    requires DirOk(b, g, dir') && Touches(b, e, g, f.AllBlocks(), {f.ino})
    requires forall x :: x in f.AllBlocks() ==> g.IsData(x) && !BlockUsed(b, g, x)
    ensures Rooms(e, dir') == Rooms(b, dir')
  {
    DirBlocksAreData(b, g, dir');
    RoomsKept(b, e, g, dir', f.AllBlocks(), {f.ino});
  }

  lemma NewInodeOk(a: seq<Byte>, b: seq<Byte>, g: Geometry, dir: seq<nat>, dir': seq<nat>, r: Record)
    requires Added(a, b, g, dir, dir', r)
    ensures GroupOk(b, g) && g.IsInode(r.inode) && InodeUsed(b, g, r.inode) &&
            InodeNo(b, g, r.inode) == FreshInode(r.fileType)
  {
    TouchesMeans(a, b, g, AsSet(dir'), {ROOT_INO, r.inode});
  }

  /** The data, the inode and the super block. */
  method FillFile(m: Mkfs, ino: nat, inode: Inode, data: seq<Byte>) returns (ok: bool, ghost f: File)
    requires m.Synced() && m.g.IsInode(ino) && InodeUsed(m.img.bytes, m.g, ino) && |data| < WORD
    requires inode == FreshInode(FT_REG_FILE)
    modifies m`super, m.img`pos, m.img`bytes
    ensures f.data == data && f.ino == ino
    ensures ok <==> FileBlocks(BlocksFor(|data|)) <= old(DescOf(m.img.bytes, 0)).freeBlocks
    ensures ok ==>
      DescOf(m.img.bytes, 0).freeBlocks + FileBlocks(BlocksFor(|data|)) == old(DescOf(m.img.bytes, 0)).freeBlocks
    ensures ok ==> DescOf(m.img.bytes, 0).freeInodes == old(DescOf(m.img.bytes, 0)).freeInodes
    ensures ok ==>
      && m.Synced() && SuperOf(m.img.bytes) == m.super && FileOk(m.img.bytes, m.g, f)
      && Touches(old(m.img.bytes), m.img.bytes, m.g, f.AllBlocks(), {ino})
      && forall x :: x in f.AllBlocks() ==> m.g.IsData(x) && !BlockUsed(old(m.img.bytes), m.g, x)
  {
    ghost var b := m.img.bytes;
    var pointers;
    ok, pointers, f := WriteData(m, data, ino);
    if ok {
      ghost var c := m.img.bytes;
      FiledMeans(b, c, m.g, f);
      GrownMeans(b, c, m.g, f.AllBlocks());
      SameInodeCount(b, c, m.g);
      PointersFit(c, m.g, f);
      StoreInode(m, ino, inode.(size := |data|, blocks := pointers));
      FileStored(b, c, m.img.bytes, m.g, f);
      GrownTouches(b, c, m.g, f.AllBlocks());
      TouchesThen(b, c, m.img.bytes, m.g, f.AllBlocks(), {}, {}, {ino});
      assert f.AllBlocks() + {} == f.AllBlocks() && {} + {ino} == {ino};
    }
  }

  lemma SameInodeCount(b: seq<Byte>, c: seq<Byte>, g: Geometry)
    requires GroupOk(b, g) && GroupOk(c, g) && InodeBits(c, g) == InodeBits(b, g)
    ensures DescOf(c, 0).freeInodes == DescOf(b, 0).freeInodes
  {
    GroupMeans(b, g);
    GroupMeans(c, g);
  }

  /** update_inode and update_super_block. */
  method StoreInode(m: Mkfs, ino: nat, n: Inode)
    requires m.Synced() && m.g.IsInode(ino) && n.Fits() && InodeUsed(m.img.bytes, m.g, ino)
    modifies m.img`pos, m.img`bytes
    ensures m.Synced() && SuperOf(m.img.bytes) == m.super
    ensures InodeNo(m.img.bytes, m.g, ino) == n && Touches(old(m.img.bytes), m.img.bytes, m.g, {}, {ino})
    ensures DescOf(m.img.bytes, 0) == old(DescOf(m.img.bytes, 0))
  {
    ghost var c := m.img.bytes;
    m.UpdateInode(ino, n);
    InodeUpdated(c, m.img.bytes, m.g, ino);
    SuperStored(m, c, ino, n);
  }

  lemma InodeUpdated(b: seq<Byte>, c: seq<Byte>, g: Geometry, ino: nat)
    requires GroupOk(b, g) && GroupOk(c, g) && g.IsInode(ino)
    requires OnlyRange(b, c, InodeOffset(g.inodeTable, BitNo(ino)), INODE_SIZE)
    requires BlockBits(c, g) == BlockBits(b, g) && InodeBits(c, g) == InodeBits(b, g)
    ensures Touches(b, c, g, {}, {ino})
  {
    GroupMeans(b, g);
    BeforeData(g, |b|);
    InodeTouches(b, c, g, ino);
  }

  /** The pointers to a file's trees are words. */
  lemma PointersFit(bytes: seq<Byte>, g: Geometry, f: File)
    requires GroupOk(bytes, g) && |Pointers(f.direct, f.indirect)| == INODE_BLOCKS
    requires forall x :: x in f.AllBlocks() ==> g.IsData(x)
    ensures forall i :: 0 <= i < INODE_BLOCKS ==> Pointers(f.direct, f.indirect)[i] < WORD
  {
    PointersAreWords(bytes, g, f.direct);
    PointersAreWords(bytes, g, f.indirect);
  }
}
