/** The kernel's side of the file system: finding a file by its path and reading it. */
module KernelReader {
  import opened Units
  import opened Bytes
  import opened Bitmaps
  import opened DirectoryBlock
  import opened DirectoryFile
  import opened ImageFile
  import opened DiskFormat
  import opened Volume
  import opened FileTree
  import opened BlockGrowth
  import opened VolumeFiles
  import opened RootDirectory
  import opened FileCopier
  import opened Paths

  /** A volume on a disk, whose super block gives the inodes of a group. */
  ghost predicate Mounted(disk: seq<Byte>, g: Geometry, dir: seq<nat>, files: Files) {
    VolumeOk(disk, g, dir, files) && WholeBios(disk) && SuperOf(disk).inodesPerGroup == g.inodesPerGroup
  }

  lemma MountedMeans(disk: seq<Byte>, g: Geometry, dir: seq<nat>, files: Files)
    requires Mounted(disk, g, dir, files)
    ensures GroupOk(disk, g) && DirOkBody(disk, g, dir) && NamesOk(DirRecords(disk, dir), files)
    ensures forall n :: n in files ==> FileOkBody(disk, g, files[n]) && files[n].ino != ROOT_INO
    ensures g.Ok(|disk|) && 0 < |disk|
  {
    VolumeMeans(disk, g, dir, files);
    DirMeans(disk, g, dir);
    GroupMeans(disk, g);
    forall n | n in files
      ensures FileOkBody(disk, g, files[n])
    {
      FileMeans(disk, g, files[n]);
    }
  }

  /** inode_get: the inode as the kernel locates it. */
  function InodeGet(disk: seq<Byte>, sb: SuperBlock, ino: nat): (n: Inode)
    requires sb.inodesPerGroup > 0 && ino > 0
    ensures n.Fits()
  {
    KernelInode(disk, (ino - 1) / sb.inodesPerGroup, (ino - 1) % sb.inodesPerGroup)
  }

  /** The kernel finds the inodes where mkfs put them. */
  lemma InodeFound(disk: seq<Byte>, g: Geometry, sb: SuperBlock, ino: nat)
    requires GroupOk(disk, g) && WholeBios(disk) && sb.inodesPerGroup == g.inodesPerGroup && g.IsInode(ino)
    ensures InodeGet(disk, sb, ino) == InodeNo(disk, g, ino)
  {
    GroupMeans(disk, g);
    ImageWriter.InodeInFirstGroup(g, ino);
    ImageWriter.InodeInside(disk, g, ino);
    InodeAgrees(disk, 0, BitNo(ino));
  }

  // ----- looking up a name

  /** dir_find_ino for the root directory. */
  method DirFindIno(disk: seq<Byte>, inode: Inode, name: seq<Byte>, ghost g: Geometry,
                    ghost dir: seq<nat>)
    returns (ino: nat)
    requires GroupOk(disk, g) && WholeBios(disk) && DirOk(disk, g, dir) && |dir| <= DIRECT_BLOCKS &&
             inode == RootInode(dir)
    requires name != [] && FileCopier.HaveInodes(DirRecords(disk, dir))
    ensures ino == Find(DirRecords(disk, dir), name)
  {
    ino := 0;
    var i := 0;
    while i < DIRECT_BLOCKS && ino == 0 && inode.blocks[i] != 0
      invariant i <= |dir|
      invariant ino == 0 ==> !Names(DirRecords(disk, dir[..i]), name)
      invariant ino != 0 ==> ino == Find(DirRecords(disk, dir), name)
      decreases DIRECT_BLOCKS - i, ino == 0
    {
      BlockLookup(disk, g, dir, i, name);
      BlockAgrees(disk, dir[i]);
      ino := BlockFindIno(KernelBlock(disk, inode.blocks[i]), name);
      FindInBlock(disk, dir, i, name);
      i := i + 1;
    }
    if ino == 0 {
      PointersEnd(disk, g, dir, i);
      assert dir[..i] == dir;
      NothingFound(DirRecords(disk, dir), name);
    }
  }

  lemma FindInBlock(disk: seq<Byte>, dir: seq<nat>, i: nat, name: seq<Byte>)
    requires i < |dir| && !Names(DirRecords(disk, dir[..i]), name) && FileCopier.HaveInodes(DirRecords(disk, dir))
    ensures var rs := Records(BlockAt(disk, dir[i]), 0);
            && (Names(rs, name) <==> Find(rs, name) != 0)
            && (Names(rs, name) ==> Find(rs, name) == Find(DirRecords(disk, dir), name))
  {
    var xs, rs, ys := DirRecords(disk, dir[..i]), Records(BlockAt(disk, dir[i]), 0), DirRecords(disk, dir[i + 1..]);
    DirSplit(disk, dir, i);
    FindMiddle(DirRecords(disk, dir), xs, rs, ys, name);
  }

  lemma FindMiddle(all: seq<Record>, xs: seq<Record>, rs: seq<Record>, ys: seq<Record>, name: seq<Byte>)
    requires all == xs + rs + ys && !Names(xs, name) && FileCopier.HaveInodes(all)
    ensures Names(rs, name) <==> Find(rs, name) != 0
    ensures Names(rs, name) ==> Find(rs, name) == Find(all, name)
  {
    assert all == xs + (rs + ys);
    FindSplit(xs, rs + ys, name);
    FindSplit(rs, ys, name);
    if Names(rs, name) {
      var i := FindIsSome(rs, name);
      assert (xs + (rs + ys))[|xs| + i] == rs[i];
    } else {
      NothingFound(rs, name);
    }
  }

  lemma {:induction false} FindIsSome(rs: seq<Record>, name: seq<Byte>) returns (i: nat)
    requires Names(rs, name)
    ensures i < |rs| && rs[i].name == name && rs[i].inode == Find(rs, name)
  {
    if rs[0].name == name {
      i := 0;
    } else {
      var j :| 0 <= j < |rs| && rs[j].name == name;
      assert rs[1..][j - 1].name == name;
      i := FindIsSome(rs[1..], name);
      i := i + 1;
    }
  }

  // ----- paths

  /** str_find: the first slash from `at` on, or the end. */
  function StrFind(path: seq<Byte>, at: nat): (e: nat)
    requires at <= |path|
    ensures at <= e <= |path| && (e < |path| ==> path[e] == SLASH)
    ensures forall k :: at <= k < e ==> path[k] != SLASH
    decreases |path| - at
  {
    if at == |path| || path[at] == SLASH then at else StrFind(path, at + 1)
  }

  /** Every name of the directory is the root or a file. */
  lemma FoundKinds(disk: seq<Byte>, g: Geometry, dir: seq<nat>, files: Files, name: seq<Byte>)
    requires Mounted(disk, g, dir, files)
    ensures var ino := Find(DirRecords(disk, dir), name);
            ino != 0 ==> g.IsInode(ino) && (ino != ROOT_INO ==> InodeNo(disk, g, ino).mode == S_IFREG)
    ensures |dir| <= DIRECT_BLOCKS && InodeNo(disk, g, ROOT_INO) == RootInode(dir) && g.IsInode(ROOT_INO)
  {
    MountedMeans(disk, g, dir, files);
    if !Names(DirRecords(disk, dir), name) {
      NothingFound(DirRecords(disk, dir), name);
    }
  }

  /** Where the component behind the one that ends at `end` begins. */
  function NextBegin(path: seq<Byte>, end: nat): nat {
    if end == |path| then end else end + 1
  }

  /** The loop is at component `k`: it begins and ends here, or the path has ended. */
  ghost predicate AtComponent(path: seq<Byte>, begin: nat, end: nat, k: nat) {
    && begin <= end <= |path| && k <= |Split(path)|
    && if k == |Split(path)| then begin == end
       else end == StrFind(path, begin) && Split(path[begin..]) == Split(path)[k..]
  }

  /** What is between two slashes is a component, and what is behind it has the others. */
  lemma ComponentHere(path: seq<Byte>, begin: nat)
    requires begin <= |path|
    ensures var end := StrFind(path, begin);
            && Split(path[begin..])[0] == path[begin..end]
            && (end == |path| ==> |Split(path[begin..])| == 1)
            && (end < |path| ==> Split(path[begin..])[1..] == Split(path[end + 1..]))
  {
    var end := StrFind(path, begin);
    var first, rest := path[begin..end], if end < |path| then path[end + 1..] else [];
    SplitFirst(first, rest);
    if end < |path| {
      assert path[begin..] == first + [SLASH] + rest;
    } else {
      assert path[begin..] == first;
    }
  }

  lemma NextComponent(path: seq<Byte>, begin: nat, end: nat, k: nat)
    requires AtComponent(path, begin, end, k) && k < |Split(path)|
    ensures path[begin..end] == Split(path)[k]
    ensures var next := NextBegin(path, end);
            AtComponent(path, next, if end == |path| then end else StrFind(path, next), k + 1)
  {
    ComponentHere(path, begin);
    var cs := Split(path);
    assert cs[k..][0] == cs[k] && cs[k..][1..] == cs[k + 1..];
  }

  /** The inode found for a path's first `k` components, none of them empty: the root's, or that of file `k - 1`. */
  ghost predicate Stage(cs: Components, files: Files, k: nat, ino: nat) {
    && k <= |cs|
    && if ino == ROOT_INO then DotsBefore(cs, k)
       else k > 0 && DotsBefore(cs, k - 1) && cs[k - 1] in files && files[cs[k - 1]].ino == ino
  }

  /** Where components lead from the root: to the root itself, to a file, or nowhere. */
  ghost predicate LeadsTo(cs: Components, files: Files, ino: nat) {
    && (ino == ROOT_INO <==> LeadsToRoot(cs))
    && (forall n :: n in files && n != [] && Leads(cs, n) ==> ino == files[n].ino)
    && (ino != 0 && ino != ROOT_INO ==> exists n :: n in files && n != [] && Leads(cs, n))
  }

  /** The inodes of files are theirs, and `.` and `..` are no files. */
  ghost predicate FilesOnly(files: Files) {
    forall n :: n in files ==> files[n].ino != ROOT_INO && files[n].ino != 0 && !IsDots(n)
  }

  /** Where the components end, the inode found is where they lead. */
  lemma PathEnds(cs: Components, files: Files, k: nat, ino: nat)
    requires FilesOnly(files) && Stage(cs, files, k, ino) && Ends(cs, k)
    requires k > 0 ==> cs[k - 1] != []
    ensures LeadsTo(cs, files, ino)
  {
    if ino == ROOT_INO {
      forall n | n in files && n != []
        ensures !Leads(cs, n)
      {
        RootOnly(cs, k, n);
      }
    } else {
      FileEnds(cs, files, k - 1);
    }
  }

  lemma RootOnly(cs: Components, k: nat, name: seq<Byte>)
    requires DotsBefore(cs, k) && Ends(cs, k) && name != [] && !IsDots(name)
    ensures !Leads(cs, name)
  {
    forall j: nat | j < |cs| && DotsBefore(cs, j) && cs[j] == name
      ensures j >= k
    {
      DotsEnd(cs, j, k);
    }
    forall j: nat | DotsBefore(cs, j) && k < |cs|
      ensures j <= k
    {
      DotsEnd(cs, k, j);
    }
  }

  /** Dots and then the name of a file. */
  lemma FileEnds(cs: Components, files: Files, k: nat)
    requires FilesOnly(files) && k < |cs| && DotsBefore(cs, k) && cs[k] in files && cs[k] != []
    ensures !LeadsToRoot(cs)
    ensures forall n :: n in files && n != cs[k] ==> !Leads(cs, n)
    ensures Leads(cs, cs[k]) <==> Ends(cs, k + 1)
  {
    forall j: nat | DotsBefore(cs, j)
      ensures j <= k
    {
      DotsEnd(cs, k, j);
    }
  }

  /** What is missing in the root, or looked for in a file, is nowhere. */
  lemma PathFails(cs: Components, files: Files, k: nat, ino: nat)
    requires FilesOnly(files) && Stage(cs, files, k, ino) && !Ends(cs, k)
    requires k > 0 ==> cs[k - 1] != []
    requires ino == ROOT_INO ==> cs[k] !in files && !IsDots(cs[k])
    ensures LeadsTo(cs, files, 0)
  {
    if ino == ROOT_INO {
      forall j: nat | DotsBefore(cs, j)
        ensures j <= k
      {
        DotsEnd(cs, k, j);
      }
    } else {
      FileEnds(cs, files, k - 1);
    }
  }

  /** namex, from the root, for the path behind its leading slash. */
  method Namex(disk: seq<Byte>, sb: SuperBlock, path: seq<Byte>, ghost g: Geometry, ghost dir: seq<nat>,
               ghost files: Files)
    returns (ino: nat)
    requires Mounted(disk, g, dir, files) && sb == SuperOf(disk)
    ensures LeadsTo(Split(path), files, ino)
  {
    ghost var cs, k := Split(path), 0;
    NamesInRoot(disk, g, dir, files);
    ino := ROOT_INO;
    var begin: nat, end: nat := 0, StrFind(path, 0);
    assert path[0..] == path;
    while end - begin != 0 && ino != 0
      invariant ino != 0 ==> AtComponent(path, begin, end, k) && Stage(cs, files, k, ino)
      invariant ino != 0 ==> g.IsInode(ino) && (ino == ROOT_INO || InodeNo(disk, g, ino).mode == S_IFREG)
      invariant ino != 0 && k > 0 ==> cs[k - 1] != []
      invariant ino == 0 ==> LeadsTo(cs, files, 0)
      decreases |path| - begin, ino != 0
    {
      NextComponent(path, begin, end, k);
      ghost var was := ino;
      ino := Component(disk, sb, ino, path[begin..end], g, dir, files);
      if ino != 0 {
        begin := NextBegin(path, end);
        end := if end == |path| then end else StrFind(path, begin);
        k := k + 1;
      } else {
        PathFails(cs, files, k, was);
      }
    }
    if ino != 0 {
      if k < |cs| {
        NextComponent(path, begin, end, k);
      }
      PathEnds(cs, files, k, ino);
    }
  }

  /** What a name leads to in the root directory. */
  lemma NamesInRoot(disk: seq<Byte>, g: Geometry, dir: seq<nat>, files: Files)
    requires Mounted(disk, g, dir, files)
    ensures FilesOnly(files) && g.IsInode(ROOT_INO)
    ensures var rs := DirRecords(disk, dir);
            forall n :: (n in files ==> Find(rs, n) == files[n].ino) && (IsDots(n) ==> Find(rs, n) == ROOT_INO)
                        && (n !in files && !IsDots(n) ==> Find(rs, n) == 0)
  {
    MountedMeans(disk, g, dir, files);
    FoundKinds(disk, g, dir, files, []);
    forall n | n !in files && !IsDots(n)
      ensures Find(DirRecords(disk, dir), n) == 0
    {
      NothingFound(DirRecords(disk, dir), n);
    }
  }

  /** One component of a path: nothing is found in what is no directory. */
  method Component(disk: seq<Byte>, sb: SuperBlock, ino: nat, name: seq<Byte>, ghost g: Geometry, ghost dir: seq<nat>,
                   ghost files: Files)
    returns (found: nat)
    requires Mounted(disk, g, dir, files) && sb == SuperOf(disk) && name != []
    requires g.IsInode(ino) && (ino == ROOT_INO || InodeNo(disk, g, ino).mode == S_IFREG)
    ensures found == if ino == ROOT_INO then Find(DirRecords(disk, dir), name) else 0
    ensures found != 0 ==> g.IsInode(found) && (found == ROOT_INO || InodeNo(disk, g, found).mode == S_IFREG)
  {
    MountedMeans(disk, g, dir, files);
    InodeFound(disk, g, sb, ino);
    FoundKinds(disk, g, dir, files, name);
    var inode := InodeGet(disk, sb, ino);
    if inode.mode != S_IFDIR {
      found := 0;
    } else {
      found := DirFindIno(disk, inode, name, g, dir);
    }
  }

  // ----- reading

  /** What the kernel can read of a file: it stops where the direct pointers do. */
  const READABLE: nat := DIRECT_BLOCKS * BLOCK_SIZE

  datatype ReadResult = Read(bytes: seq<Byte>) | Failed

  /** What reading `size` bytes at `pos` of a file should give, up to the end of what is readable. */
  function Expected(data: seq<Byte>, pos: nat, size: nat): ReadResult {
    if pos >= |data| then Read([])
    else if pos >= READABLE then Failed
    else Read(data[pos..Min(pos + size, Min(|data|, READABLE))])
  }

  /** A file of one byte more than that: the byte is there, and reading it fails. */
  lemma LastByteFails(data: seq<Byte>)
    requires |data| == READABLE + 1
    ensures Expected(data, READABLE, 1) == Failed && Expected(data, 0, |data|) == Read(data[..READABLE])
  {
  }

  lemma {:induction false} LeafRoots(bytes: seq<Byte>, ts: seq<Tree>)
    requires StoredAll(bytes, ts, 0)
    ensures LeavesOf(ts) == Roots(ts)
    decreases ts
  {
    if ts != [] {
      LeafRoots(bytes, ts[..|ts| - 1]);
    }
  }

  /** A direct pointer of a file leads to its chunk. */
  lemma DirectChunk(disk: seq<Byte>, g: Geometry, f: File, j: nat)
    requires FileOkBody(disk, g, f) && GroupOk(disk, g) && j < BlocksFor(|f.data|) && j < DIRECT_BLOCKS
    ensures HoldsChunk(disk, InodeNo(disk, g, f.ino).blocks[j], f.data, j)
    ensures HasBlock(disk, InodeNo(disk, g, f.ino).blocks[j])
  {
    LeafRoots(disk, f.direct);
    var b := f.DataBlocks()[j];
    assert HoldsChunk(disk, b, f.data, 0 + j);
    DataBlocksAreBlocks(f, b);
    DataIsNumbered(disk, g, b);
  }

  /** The part of a block's buffer that belongs to the file is the file's bytes there. */
  lemma BufferIsData(disk: seq<Byte>, block: nat, data: seq<Byte>, j: nat, at: nat, n: nat)
    requires HoldsChunk(disk, block, data, j) && HasBlock(disk, block) && at + n <= BLOCK_SIZE
    requires j * BLOCK_SIZE + at + n <= |data|
    ensures BlockAt(disk, block)[at..at + n] == data[j * BLOCK_SIZE + at..j * BLOCK_SIZE + at + n]
  {
    var c := Chunk(data, j);
    var b := BlockAt(disk, block);
    SliceInBlock(disk, block, 0, |c|);
    ChunkAt(data, j, at, n);
    assert b[0..|c|] == c;
    assert b[at..at + n] == b[0..|c|][at..at + n];
  }

  lemma ChunkAt(data: seq<Byte>, j: nat, at: nat, n: nat)
    requires j < BlocksFor(|data|) && at + n <= BLOCK_SIZE && j * BLOCK_SIZE + at + n <= |data|
    ensures at + n <= |Chunk(data, j)|
    ensures Chunk(data, j)[at..at + n] == data[j * BLOCK_SIZE + at..j * BLOCK_SIZE + at + n]
  {
    var c, s, t := Chunk(data, j), Chunk(data, j)[at..at + n], data[j * BLOCK_SIZE + at..j * BLOCK_SIZE + at + n];
    forall k: nat | k < n
      ensures s[k] == t[k]
    {
      assert s[k] == c[at + k];
    }
  }

  /** read_file. */
  method ReadFile(disk: seq<Byte>, inode: Inode, pos: nat, size: nat, ghost g: Geometry,
                  ghost f: File)
    returns (res: ReadResult)
    requires GroupOk(disk, g) && WholeBios(disk) && FileOk(disk, g, f) && inode == InodeNo(disk, g, f.ino)
    ensures res == Expected(f.data, pos, size)
  {
    FileMeans(disk, g, f);
    if pos >= inode.size {
      return Read([]);
    }
    if pos / BLOCK_SIZE >= DIRECT_BLOCKS {
      return Failed;
    }
    var left: nat := Min(size, inode.size - pos);
    var buffer := ReadBlocks(disk, inode, pos, left, g, f);
    res := Read(buffer);
  }

  /** The loop of read_file. */
  method ReadBlocks(disk: seq<Byte>, inode: Inode, pos: nat, size: nat, ghost g: Geometry,
                    ghost f: File)
    returns (buffer: seq<Byte>)
    requires GroupOk(disk, g) && WholeBios(disk) && FileOk(disk, g, f) && inode == InodeNo(disk, g, f.ino)
    requires pos / BLOCK_SIZE < DIRECT_BLOCKS && pos + size <= |f.data|
    ensures buffer == f.data[pos..Min(pos + size, Min(|f.data|, READABLE))]
  {
    buffer := [];
    var left: nat, blockIndex: nat, blockPos: nat := size, pos / BLOCK_SIZE, pos % BLOCK_SIZE;
    while left > 0 && blockIndex < DIRECT_BLOCKS
      invariant |buffer| + left == size && buffer == f.data[pos..pos + |buffer|]
      invariant blockPos < BLOCK_SIZE && blockIndex <= DIRECT_BLOCKS && pos + |buffer| <= READABLE
      invariant left > 0 ==> blockIndex * BLOCK_SIZE + blockPos == pos + |buffer|
      decreases DIRECT_BLOCKS - blockIndex
    {
      var bytes := Min(left, BLOCK_SIZE - blockPos);
      var part := ReadPart(disk, inode, blockIndex, blockPos, bytes, g, f);
      Extend(f.data, pos, buffer, part);
      left := left - bytes;
      buffer := buffer + part;
      blockIndex := blockIndex + 1;
      blockPos := 0;
    }
  }

  lemma Extend(data: seq<Byte>, pos: nat, buffer: seq<Byte>, part: seq<Byte>)
    requires pos + |buffer| + |part| <= |data| && buffer == data[pos..pos + |buffer|]
    requires part == data[pos + |buffer|..pos + |buffer| + |part|]
    ensures buffer + part == data[pos..pos + |buffer + part|]
  {
  }

  /** One round of read_file: the part of one block. */
  method ReadPart(disk: seq<Byte>, inode: Inode, blockIndex: nat, blockPos: nat, bytes: nat, ghost g: Geometry,
                  ghost f: File)
    returns (part: seq<Byte>)
    requires GroupOk(disk, g) && WholeBios(disk) && FileOk(disk, g, f) && inode == InodeNo(disk, g, f.ino)
    requires blockIndex < DIRECT_BLOCKS && blockPos + bytes <= BLOCK_SIZE && bytes > 0
    requires blockIndex * BLOCK_SIZE + blockPos + bytes <= |f.data|
    ensures |part| == bytes
    ensures part == f.data[blockIndex * BLOCK_SIZE + blockPos..blockIndex * BLOCK_SIZE + blockPos + bytes]
  {
    FileMeans(disk, g, f);
    DirectChunk(disk, g, f, blockIndex);
    BlockAgrees(disk, inode.blocks[blockIndex]);
    BufferIsData(disk, inode.blocks[blockIndex], f.data, blockIndex, blockPos, bytes);
    var block := KernelBlock(disk, inode.blocks[blockIndex]);
    part := block[blockPos..blockPos + bytes];
  }

  /** An open file of the kernel: its inode and the position of the next read. */
  class OpenFile {
    const inode: Inode
    var pos: nat

    constructor (inode: Inode)
      ensures this.inode == inode && pos == 0
    {
      this.inode, pos := inode, 0;
    }

    /** ax_read. */
    method AxRead(disk: seq<Byte>, size: nat, ghost g: Geometry, ghost f: File) returns (res: ReadResult)
      requires GroupOk(disk, g) && WholeBios(disk) && FileOk(disk, g, f) && inode == InodeNo(disk, g, f.ino)
      modifies this`pos
      ensures res == Expected(f.data, old(pos), size)
      ensures pos == old(pos) + if res.Read? then |res.bytes| else 0
    {
      res := ReadFile(disk, inode, pos, size, g, f);
      if res.Read? && |res.bytes| > 0 {
        pos := pos + |res.bytes|;
      }
    }
  }

  function Sum(sizes: seq<nat>): nat {
    if sizes == [] then 0 else sizes[0] + Sum(sizes[1..])
  }

  datatype Option<T> = None | Some(value: T)

  /**
   ax_open, for reading: it opens exactly the paths that lead to a file, and gives the inode's number and the inode.
   */
  method AxOpen(disk: seq<Byte>, path: seq<Byte>, ghost g: Geometry, ghost dir: seq<nat>, ghost files: Files)
    returns (ino: nat, inode: Option<Inode>)
    requires Mounted(disk, g, dir, files)
    ensures inode.Some? <==> exists n :: n in files && Opens(path, n)
    ensures forall n :: n in files && Opens(path, n) ==>
              ino == files[n].ino && inode == Some(InodeNo(disk, g, ino))
  {
    NamesInRoot(disk, g, dir, files);
    SuperAgrees(disk);
    var sb := KernelSuper(disk);
    ino, inode := 0, None;
    if path != [] && path[0] == SLASH {
      ino := Namex(disk, sb, path[1..], g, dir, files);
      if ino != 0 {
        InodeLedTo(disk, g, sb, dir, files, Split(path[1..]), ino);
        var n := InodeGet(disk, sb, ino);
        if n.mode != S_IFDIR {
          inode := Some(n);
        }
      }
    }
  }

  /** The inode that a path leads to is the root's or a file's, and the kernel gets it. */
  lemma InodeLedTo(disk: seq<Byte>, g: Geometry, sb: SuperBlock, dir: seq<nat>, files: Files, cs: Components, ino: nat)
    requires Mounted(disk, g, dir, files) && sb == SuperOf(disk) && LeadsTo(cs, files, ino) && ino != 0
    ensures sb.inodesPerGroup > 0 && InodeGet(disk, sb, ino) == InodeNo(disk, g, ino)
    ensures InodeNo(disk, g, ino).mode == if ino == ROOT_INO then S_IFDIR else S_IFREG
  {
    MountedMeans(disk, g, dir, files);
    if ino == ROOT_INO {
      FoundKinds(disk, g, dir, files, DOT);
    } else {
      var n :| n in files && n != [] && Leads(cs, n);
      FoundKinds(disk, g, dir, files, n);
    }
    InodeFound(disk, g, sb, ino);
  }

  /**
   The kernel opens a path and reads the file in pieces of any sizes: it opens exactly if the path leads to a file,
   and what it gets, put together, is this file's bytes, as far as its direct blocks go.
   */
  method OpenAndRead(disk: seq<Byte>, path: seq<Byte>, sizes: seq<nat>, ghost g: Geometry, ghost dir: seq<nat>,
                     ghost files: Files)
    returns (isOpen: bool, bytes: seq<Byte>, failed: bool)
    requires Mounted(disk, g, dir, files)
    ensures isOpen <==> exists n :: n in files && Opens(path, n)
    ensures forall n :: n in files && Opens(path, n) ==>
      var data := files[n].data;
      && bytes == data[..Min(Sum(sizes), Readable(data))]
      && (failed <==> |data| > READABLE && sizes != [] && Sum(sizes[..|sizes| - 1]) >= READABLE)
  {
    bytes, failed := [], false;
    var ino, inode := AxOpen(disk, path, g, dir, files);
    isOpen := inode.Some?;
    if isOpen {
      ghost var name :| name in files && Opens(path, name);
      NameAlone(disk, g, dir, files, path, name);
      FileThere(disk, g, dir, files, name);
      var file := new OpenFile(inode.value);
      bytes, failed := ReadPieces(disk, file, sizes, g, files[name]);
    }
  }

  /** A path opens no more than one file. */
  lemma NameAlone(disk: seq<Byte>, g: Geometry, dir: seq<nat>, files: Files, path: seq<Byte>, name: seq<Byte>)
    requires Mounted(disk, g, dir, files) && name in files && Opens(path, name)
    ensures forall n :: n in files && Opens(path, n) ==> n == name
  {
    NamesInRoot(disk, g, dir, files);
    forall n | n in files && Opens(path, n)
      ensures n == name
    {
      OpensOne(path, n, name);
    }
  }

  /** A file of a volume can be read. */
  lemma FileThere(disk: seq<Byte>, g: Geometry, dir: seq<nat>, files: Files, name: seq<Byte>)
    requires Mounted(disk, g, dir, files) && name in files
    ensures FileOk(disk, g, files[name]) && GroupOk(disk, g) && WholeBios(disk)
  {
    VolumeMeans(disk, g, dir, files);
    MountedMeans(disk, g, dir, files);
  }

  /** How much of a file the kernel gets: up to the end of the direct blocks. */
  function Readable(data: seq<Byte>): nat {
    Min(|data|, READABLE)
  }

  lemma {:induction false} SumMore(sizes: seq<nat>, i: nat)
    requires i < |sizes|
    ensures Sum(sizes[..i + 1]) == Sum(sizes[..i]) + sizes[i]
  {
    if i > 0 {
      assert sizes[..i + 1][1..] == sizes[1..][..i] && sizes[..i][1..] == sizes[1..][..i - 1];
      SumMore(sizes[1..], i - 1);
    } else {
      assert sizes[..1][1..] == [];
    }
  }

  /**
   Reads one piece after the other. A read fails exactly if the file goes on behind the direct blocks and
   the pieces before the last reach there.
   */
  method ReadPieces(disk: seq<Byte>, file: OpenFile, sizes: seq<nat>, ghost g: Geometry, ghost f: File)
    returns (bytes: seq<Byte>, failed: bool)
    requires GroupOk(disk, g) && WholeBios(disk) && FileOk(disk, g, f) && file.inode == InodeNo(disk, g, f.ino)
    requires file.pos == 0
    modifies file`pos
    ensures bytes == f.data[..Min(Sum(sizes), Readable(f.data))]
    ensures failed <==> |f.data| > READABLE && sizes != [] && Sum(sizes[..|sizes| - 1]) >= READABLE
  {
    bytes, failed := [], false;
    var i := 0;
    ghost var sum := 0;
    assert sizes[..0] == [];
    while i < |sizes|
      invariant 0 <= i <= |sizes| && sum == Sum(sizes[..i])
      invariant file.pos == Min(sum, Readable(f.data)) && bytes == f.data[..file.pos]
      invariant failed <==> |f.data| > READABLE && i > 0 && Sum(sizes[..i - 1]) >= READABLE
    {
      SumMore(sizes, i);
      if i > 0 {
        SumMore(sizes, i - 1);
      }
      var res := file.AxRead(disk, sizes[i], g, f);
      if res.Read? {
        bytes := bytes + res.bytes;
      } else {
        failed := true;
      }
      sum := sum + sizes[i];
      i := i + 1;
    }
    assert sizes[..i] == sizes;
  }
}
