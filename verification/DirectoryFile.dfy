/** How mkfs writes and finds directory records with a file cursor, and how the kernel finds them. */
module DirectoryFile {
  import opened Bytes
  import opened DirectoryBlock
  import opened ImageFile

  /** fread of a record header. */
  method ReadHeader(img: Image) returns (h: Header)
    requires img.pos + ENTRY_HEADER <= |img.bytes|
    modifies img`pos
    ensures h == HeaderAt(Slice(img.bytes, old(img.pos), ENTRY_HEADER), 0) && img.pos == old(img.pos) + ENTRY_HEADER
  {
    var s := img.Read(ENTRY_HEADER);
    h := HeaderAt(s, 0);
  }

  lemma HeaderInBlock(bytes: seq<Byte>, block: nat, at: nat)
    requires HasBlock(bytes, block) && at + ENTRY_HEADER <= BLOCK_SIZE
    ensures HeaderAt(Slice(bytes, block * BLOCK_SIZE + at, ENTRY_HEADER), 0) == HeaderAt(BlockAt(bytes, block), at)
  {
    SliceInBlock(bytes, block, at, ENTRY_HEADER);
  }

  /** Reaching `at` by way of the records of a tiled block. */
  ghost predicate Scanned(b: seq<Byte>, at: nat, before: seq<Record>) {
    && |b| == BLOCK_SIZE && Tiled(b, at) && Records(b, 0) == before + Records(b, at) && End(b, 0) == End(b, at)
  }

  lemma StartScan(b: seq<Byte>)
    requires Tiled(b, 0)
    ensures Scanned(b, 0, [])
  {
  }

  lemma ScanOne(b: seq<Byte>, at: nat, before: seq<Record>)
    requires Scanned(b, at, before) && at < BLOCK_SIZE
    ensures at + ENTRY_HEADER <= BLOCK_SIZE && at % 4 == 0
    ensures var h := HeaderAt(b, at);
            if h.fileType == FT_UNKNOWN then
              PaddingAt(b, at) && Records(b, at) == [] && End(b, 0) == at && h.recLen == BLOCK_SIZE - at
            else
              && UsedAt(b, at) && at < at + h.recLen <= BLOCK_SIZE
              && Scanned(b, at + h.recLen, before + [RecordAt(b, at)])
  {
    var h := HeaderAt(b, at);
    if h.fileType == FT_UNKNOWN {
      NoRecord(b, at);
    } else {
      Step(b, at, at + h.recLen);
      assert before + ([RecordAt(b, at)] + Records(b, at + h.recLen))
             == (before + [RecordAt(b, at)]) + Records(b, at + h.recLen);
    }
  }

  lemma ScanEnd(b: seq<Byte>, before: seq<Record>)
    requires Scanned(b, BLOCK_SIZE, before)
    ensures Records(b, 0) == before && Room(b) == 0
  {
    NoRecord(b, BLOCK_SIZE);
  }

  /** write_dir_entry_here, with the cursor at the padding that has `room` bytes. */
  method WriteEntryHere(img: Image, r: Record, room: nat, ghost block: nat, ghost at: nat)
    requires HasBlock(img.bytes, block) && img.pos == block * BLOCK_SIZE + at && at + room == BLOCK_SIZE
    requires CanWrite(r, room)
    modifies img`bytes, img`pos
    ensures OnlyRange(old(img.bytes), img.bytes, block * BLOCK_SIZE + at, room)
    ensures Written(BlockAt(img.bytes, block), at, r, room)
    ensures SameBefore(old(BlockAt(img.bytes, block)), BlockAt(img.bytes, block), at)
  {
    ghost var bytes0, start := img.bytes, img.pos;
    img.Write(EntryBytes(r, room));
    if NeedsPadding(r, room) {
      img.Write(PaddingBytes(r, room));
    }
    WriteTwice(bytes0, start, EntryBytes(r, room), PaddingBytes(r, room));
    EntryWritten(bytes0, block, at, r, room, RecordBytes(r, room));
  }

  lemma WriteTwice(bytes: seq<Byte>, at: nat, a: seq<Byte>, b: seq<Byte>)
    requires at + |a| + |b| <= |bytes|
    ensures Overwrite(Overwrite(bytes, at, a), at + |a|, b) == Overwrite(bytes, at, a + b)
    ensures b == [] ==> Overwrite(bytes, at, a) == Overwrite(bytes, at, a + b)
  {
  }

  lemma EntryWritten(bytes: seq<Byte>, block: nat, at: nat, r: Record, room: nat, data: seq<Byte>)
    requires HasBlock(bytes, block) && at + room == BLOCK_SIZE && CanWrite(r, room)
    requires data == RecordBytes(r, room) && |data| <= room
    ensures var bytes' := Overwrite(bytes, block * BLOCK_SIZE + at, data);
            && OnlyRange(bytes, bytes', block * BLOCK_SIZE + at, room)
            && Written(BlockAt(bytes', block), at, r, room)
            && SameBefore(BlockAt(bytes, block), BlockAt(bytes', block), at)
  {
    OverwrittenBlock(bytes, block, at, data);
  }

  /** write_dir_entry_to_block: the record goes behind the others if the block has room for it. */
  method WriteEntryToBlock(img: Image, block: nat, r: Record) returns (ok: bool)
    requires HasBlock(img.bytes, block) && Tiled(BlockAt(img.bytes, block), 0)
    requires r.inode < WORD && 0 < r.fileType < 256 && LegalName(r.name)
    modifies img`bytes, img`pos
    ensures ok <==> RecLen(|r.name|) <= Room(old(BlockAt(img.bytes, block)))
    ensures !ok ==> img.bytes == old(img.bytes)
    ensures ok ==>
      && OnlyRange(old(img.bytes), img.bytes, block * BLOCK_SIZE, BLOCK_SIZE) && Tiled(BlockAt(img.bytes, block), 0)
      && Records(BlockAt(img.bytes, block), 0) == Records(old(BlockAt(img.bytes, block)), 0) + [r]
      && Room(BlockAt(img.bytes, block)) == RoomAfter(|r.name|, Room(old(BlockAt(img.bytes, block))))
  {
    ghost var b := BlockAt(img.bytes, block);
    var h, at := ScanToPadding(img, block);
    ok := h.fileType == FT_UNKNOWN && h.recLen >= RecLen(|r.name|);
    if ok {
      var back: int := ENTRY_HEADER;
      img.Skip(-back);
      RoomMeans(b);
      WriteEntryHere(img, r, h.recLen, block, at);
      Inserted(b, BlockAt(img.bytes, block), r, at, h.recLen);
    }
  }

  ghost predicate PaddingFound(b: seq<Byte>, block: nat, at: nat, h: Header, pos: nat) {
    && pos == block * BLOCK_SIZE + at + ENTRY_HEADER && at == End(b, 0)
    && h.recLen == Room(b) && at + h.recLen == BLOCK_SIZE
  }

  /** The loop of write_dir_entry_to_block: the cursor ends behind the first unused header, if there is one. */
  method ScanToPadding(img: Image, block: nat) returns (h: Header, ghost at: nat)
    requires HasBlock(img.bytes, block) && Tiled(BlockAt(img.bytes, block), 0)
    modifies img`pos
    ensures h.fileType == FT_UNKNOWN ==> PaddingFound(BlockAt(img.bytes, block), block, at, h, img.pos)
    ensures h.fileType != FT_UNKNOWN ==> Room(BlockAt(img.bytes, block)) == 0
  {
    ghost var b, before := BlockAt(img.bytes, block), [];
    StartScan(b);
    img.Seek(block * BLOCK_SIZE);
    var blockSize: int := BLOCK_SIZE;
    at := 0;
    h := Header(0, 0, 0, FT_REG_FILE);
    while blockSize > 0 && h.fileType != FT_UNKNOWN
      invariant 0 <= blockSize <= BLOCK_SIZE
      invariant if h.fileType == FT_UNKNOWN then PaddingFound(b, block, at, h, img.pos)
                else at == BLOCK_SIZE - blockSize && img.pos == block * BLOCK_SIZE + at && Scanned(b, at, before)
      decreases blockSize, h.fileType != FT_UNKNOWN
    {
      ScanOne(b, at, before);
      HeaderInBlock(img.bytes, block, at);
      h := ReadHeader(img);
      if h.fileType != FT_UNKNOWN {
        before := before + [RecordAt(b, at)];
        img.Skip(h.recLen - ENTRY_HEADER);
        blockSize := blockSize - h.recLen;
        at := at + h.recLen;
      }
    }
    if h.fileType != FT_UNKNOWN {
      ScanEnd(b, before);
    }
  }

  // ----- finding a record

  /** What a search of a block finds: the first record of that name. */
  ghost predicate FoundIn(b: seq<Byte>, name: seq<Byte>, found: bool, inode: nat, fileType: nat) {
    && (found <==> Names(Records(b, 0), name))
    && (found ==> exists i :: FirstOf(Records(b, 0), name, i) && Records(b, 0)[i] == Record(inode, fileType, name))
  }

  /** Record `i` is the first of that name. */
  ghost predicate FirstOf(rs: seq<Record>, name: seq<Byte>, i: int) {
    0 <= i < |rs| && rs[i].name == name && forall j :: 0 <= j < i ==> rs[j].name != name
  }

  lemma {:induction false} FirstOfIsFound(rs: seq<Record>, name: seq<Byte>, i: int)
    requires FirstOf(rs, name, i)
    ensures Find(rs, name) == rs[i].inode
  {
    if i > 0 {
      FirstOfIsFound(rs[1..], name, i - 1);
    }
  }

  /** get_dir_entry_from_block. */
  method GetEntryFromBlock(img: Image, block: nat, name: seq<Byte>) returns (found: bool, h: Header)
    requires HasBlock(img.bytes, block) && Tiled(BlockAt(img.bytes, block), 0) && LegalName(name)
    modifies img`pos
    ensures FoundIn(BlockAt(img.bytes, block), name, found, h.inode, h.fileType)
  {
    ghost var b, before, at := BlockAt(img.bytes, block), [], 0;
    StartScan(b);
    img.Seek(block * BLOCK_SIZE);
    var blockSize: int := BLOCK_SIZE;
    found, h := false, Header(0, 0, 0, FT_UNKNOWN);
    while blockSize > 0 && !found
      invariant 0 <= blockSize <= BLOCK_SIZE
      invariant if found then FoundIn(b, name, true, h.inode, h.fileType) else
                && at == BLOCK_SIZE - blockSize && img.pos == block * BLOCK_SIZE + at
                && ScannedFor(b, at, before, name)
      decreases blockSize, !found
    {
      found, h := LookHere(img, block, at, name, b, before);
      if !found {
        before := if h.fileType == FT_UNKNOWN then before else before + [RecordAt(b, at)];
        blockSize := blockSize - h.recLen;
        at := at + h.recLen;
      }
    }
    if !found {
      NotFound(b, before, name);
    }
  }

  /** Scanned up to `at` (or past the padding), without meeting the name. */
  ghost predicate ScannedFor(b: seq<Byte>, at: nat, before: seq<Record>, name: seq<Byte>) {
    && (Scanned(b, at, before) || (at == BLOCK_SIZE && Records(b, 0) == before))
    && !Names(before, name)
  }

  lemma NotFound(b: seq<Byte>, before: seq<Record>, name: seq<Byte>)
    requires |b| == BLOCK_SIZE && ScannedFor(b, BLOCK_SIZE, before, name)
    ensures FoundIn(b, name, false, 0, 0)
  {
    if Scanned(b, BLOCK_SIZE, before) {
      ScanEnd(b, before);
    }
  }

  lemma FoundHere(b: seq<Byte>, at: nat, before: seq<Record>, name: seq<Byte>)
    requires Scanned(b, at, before) && UsedAt(b, at) && !Names(before, name) && RecordAt(b, at).name == name
    ensures FoundIn(b, name, true, RecordAt(b, at).inode, RecordAt(b, at).fileType)
  {
    Step(b, at, at + HeaderAt(b, at).recLen);
    assert Records(b, 0)[|before|] == RecordAt(b, at);
    assert forall j :: 0 <= j < |before| ==> Records(b, 0)[j] == before[j];
    assert FirstOf(Records(b, 0), name, |before|);
  }

  lemma NotHere(before: seq<Record>, r: Record, name: seq<Byte>)
    requires !Names(before, name) && r.name != name
    ensures !Names(before + [r], name)
  {
  }

  /** One round of get_dir_entry_from_block. */
  method LookHere(img: Image, ghost block: nat, ghost at: nat, name: seq<Byte>, ghost b: seq<Byte>,
                  ghost before: seq<Record>)
    returns (found: bool, h: Header)
    requires HasBlock(img.bytes, block) && b == BlockAt(img.bytes, block) && at < BLOCK_SIZE && LegalName(name)
    requires img.pos == block * BLOCK_SIZE + at && ScannedFor(b, at, before, name)
    modifies img`pos
    ensures found ==> FoundIn(b, name, true, h.inode, h.fileType)
    ensures !found ==>
      && at < at + h.recLen <= BLOCK_SIZE && img.pos == block * BLOCK_SIZE + at + h.recLen
      && (h.fileType != FT_UNKNOWN ==> UsedAt(b, at))
      && ScannedFor(b, at + h.recLen, if h.fileType == FT_UNKNOWN then before else before + [RecordAt(b, at)], name)
  {
    ScanOne(b, at, before);
    HeaderInBlock(img.bytes, block, at);
    h := ReadHeader(img);
    found := false;
    var offset := h.recLen - ENTRY_HEADER;
    if h.fileType != FT_UNKNOWN {
      if h.nameLen == |name| {
        NameInBlock(img.bytes, block, at);
        var entryName := img.Read(|name|);
        offset := offset - |name|;
        found := entryName == name;
      }
      if found {
        FoundHere(b, at, before, name);
      } else {
        NotHere(before, RecordAt(b, at), name);
      }
    }
    if !found {
      img.Skip(offset);
    }
  }

  lemma NameInBlock(bytes: seq<Byte>, block: nat, at: nat)
    requires HasBlock(bytes, block) && UsedAt(BlockAt(bytes, block), at)
    ensures Slice(bytes, block * BLOCK_SIZE + at + ENTRY_HEADER, HeaderAt(BlockAt(bytes, block), at).nameLen)
            == RecordAt(BlockAt(bytes, block), at).name
  {
    SliceInBlock(bytes, block, at + ENTRY_HEADER, HeaderAt(BlockAt(bytes, block), at).nameLen);
  }

  /** block_find_ino of the kernel, over the buffer of a block. */
  method BlockFindIno(b: seq<Byte>, name: seq<Byte>) returns (ino: nat)
    requires Tiled(b, 0) && name != []
    ensures ino == Find(Records(b, 0), name)
  {
    ghost var before := [];
    StartScan(b);
    var it := 0;
    ino := 0;
    while it < BLOCK_SIZE
      invariant 0 <= it <= BLOCK_SIZE && ino == 0 && ScannedFor(b, it, before, name)
      decreases BLOCK_SIZE - it
    {
      ScanOne(b, it, before);
      var h := HeaderAt(b, it);
      if h.nameLen == |name| && b[it + ENTRY_HEADER..it + ENTRY_HEADER + h.nameLen] == name {
        ino := h.inode;
        FoundHere(b, it, before, name);
        ghost var i :| FirstOf(Records(b, 0), name, i) && Records(b, 0)[i] == Record(ino, h.fileType, name);
        FirstOfIsFound(Records(b, 0), name, i);
        return;
      }
      if h.recLen == 0 {
        return;
      }
      if h.fileType != FT_UNKNOWN {
        NotHere(before, RecordAt(b, it), name);
        before := before + [RecordAt(b, it)];
      }
      it := it + h.recLen;
    }
    NotFound(b, before, name);
    NothingFound(Records(b, 0), name);
  }

  lemma {:induction false} NothingFound(rs: seq<Record>, name: seq<Byte>)
    requires !Names(rs, name)
    ensures Find(rs, name) == 0
  {
    FindSplit(rs, [], name);
    assert rs + [] == rs;
  }
}
