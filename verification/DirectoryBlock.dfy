/** The records of a directory block, as bytes: inode, record length, name length, file type, name. */
module DirectoryBlock {
  import opened Bytes

  const BLOCK_SIZE: nat := 1024
  const ENTRY_HEADER: nat := 8

  const FT_UNKNOWN: nat := 0
  const FT_REG_FILE: nat := 1
  const FT_DIR: nat := 2

  const DOT: seq<Byte> := [46]
  const DOT_DOT: seq<Byte> := [46, 46]

  datatype Header = Header(inode: nat, recLen: nat, nameLen: nat, fileType: nat)

  /** What a directory records: a name for an inode of some type. */
  datatype Record = Record(inode: nat, fileType: nat, name: seq<Byte>)

  function HeaderAt(b: seq<Byte>, at: nat): Header
    requires at + ENTRY_HEADER <= |b|
  {
    Header(Word32(b, at), Word16(b, at + 4), b[at + 6] as int, b[at + 7] as int)
  }

  function HeaderBytes(h: Header): (s: seq<Byte>)
    requires h.inode < WORD && h.recLen < 0x1_0000 && h.nameLen < 256 && h.fileType < 256
    ensures |s| == ENTRY_HEADER && HeaderAt(s, 0) == h
  {
    Encode32(h.inode) + Encode16(h.recLen) + [h.nameLen as Byte, h.fileType as Byte]
  }

  /** The place of every field of a record. */
  lemma HeaderLayout(b: seq<Byte>, at: nat)
    requires at + ENTRY_HEADER <= |b|
    ensures HeaderAt(b, at) == Header(LittleEndian(b[at..at + 4]), LittleEndian(b[at + 4..at + 6]), b[at + 6] as nat,
                                      b[at + 7] as nat)
  {
    WordsAreLittleEndian(b, at);
    WordsAreLittleEndian(b, at + 4);
  }

  /** Room for a name: the header and the name, rounded up to a multiple of 4 above it. */
  function RecLen(nameLen: nat): (r: nat)
    ensures r % 4 == 0 && ENTRY_HEADER + nameLen < r <= ENTRY_HEADER + nameLen + 4
  {
    var n := ENTRY_HEADER + nameLen + 4;
    n - n % 4
  }

  predicate LegalName(name: seq<Byte>) {
    1 <= |name| <= 255
  }

  /** A used record at `at` that ends inside the block. */
  ghost predicate UsedAt(b: seq<Byte>, at: nat) {
    && |b| == BLOCK_SIZE && at + ENTRY_HEADER <= BLOCK_SIZE
    && var h := HeaderAt(b, at);
       && h.fileType != FT_UNKNOWN && h.recLen % 4 == 0 && at + h.recLen <= BLOCK_SIZE
       && 1 <= h.nameLen && ENTRY_HEADER + h.nameLen <= h.recLen
  }

  /** Padding at `at`, up to the end of the block. */
  ghost predicate PaddingAt(b: seq<Byte>, at: nat) {
    && |b| == BLOCK_SIZE && at + ENTRY_HEADER <= BLOCK_SIZE
    && HeaderAt(b, at) == Header(0, BLOCK_SIZE - at, 0, FT_UNKNOWN)
  }

  /** From `at` on, records tile the block; padding, if there is any, is last. */
  ghost predicate Tiled(b: seq<Byte>, at: nat)
    decreases BLOCK_SIZE - at
  {
    && |b| == BLOCK_SIZE && at % 4 == 0
    && (at == BLOCK_SIZE || PaddingAt(b, at) || (UsedAt(b, at) && Tiled(b, at + HeaderAt(b, at).recLen)))
  }

  function RecordAt(b: seq<Byte>, at: nat): Record
    requires UsedAt(b, at)
  {
    var h := HeaderAt(b, at);
    Record(h.inode, h.fileType, b[at + ENTRY_HEADER..at + ENTRY_HEADER + h.nameLen])
  }

  /** The records from `at` on, in order. */
  ghost function Records(b: seq<Byte>, at: nat): seq<Record>
    decreases BLOCK_SIZE - at
  {
    if UsedAt(b, at) then [RecordAt(b, at)] + Records(b, at + HeaderAt(b, at).recLen) else []
  }

  /** Where the records from `at` on end: at the padding, or at the end of the block. */
  ghost function End(b: seq<Byte>, at: nat): (e: nat)
    ensures at <= e
    decreases BLOCK_SIZE - at
  {
    if UsedAt(b, at) then End(b, at + HeaderAt(b, at).recLen) else at
  }

  /** How long a record the block has room for. */
  ghost function Room(b: seq<Byte>): nat {
    if End(b, 0) <= BLOCK_SIZE then BLOCK_SIZE - End(b, 0) else 0
  }

  lemma {:induction false} EndTiled(b: seq<Byte>, at: nat)
    requires Tiled(b, at)
    ensures End(b, at) % 4 == 0 && (End(b, at) == BLOCK_SIZE || PaddingAt(b, End(b, at)))
    decreases BLOCK_SIZE - at
  {
    if UsedAt(b, at) {
      EndTiled(b, at + HeaderAt(b, at).recLen);
    }
  }

  // ----- writing a record

  /** Does a record leave room for the header of padding? */
  predicate NeedsPadding(r: Record, room: nat) {
    room >= RecLen(|r.name|) + ENTRY_HEADER
  }

  /** The header of a record written into `room` bytes. */
  function NewHeader(r: Record, room: nat): Header {
    Header(r.inode, if NeedsPadding(r, room) then RecLen(|r.name|) else room, |r.name|, r.fileType)
  }

  function EntryBytes(r: Record, room: nat): (s: seq<Byte>)
    requires r.inode < WORD && 0 < r.fileType < 256 && LegalName(r.name)
    requires RecLen(|r.name|) <= room <= BLOCK_SIZE
    ensures |s| == RecLen(|r.name|)
  {
    HeaderBytes(NewHeader(r, room)) + r.name + Zeros(RecLen(|r.name|) - ENTRY_HEADER - |r.name|)
  }

  function PaddingBytes(r: Record, room: nat): (s: seq<Byte>)
    requires RecLen(|r.name|) <= room <= BLOCK_SIZE
    ensures |s| == if NeedsPadding(r, room) then ENTRY_HEADER else 0
  {
    if NeedsPadding(r, room) then HeaderBytes(Header(0, room - RecLen(|r.name|), 0, FT_UNKNOWN)) else []
  }

  /** A record and the header of the padding behind it, if any. */
  function RecordBytes(r: Record, room: nat): (s: seq<Byte>)
    requires r.inode < WORD && 0 < r.fileType < 256 && LegalName(r.name)
    requires RecLen(|r.name|) <= room <= BLOCK_SIZE
  {
    EntryBytes(r, room) + PaddingBytes(r, room)
  }

  ghost predicate SameBefore(b: seq<Byte>, c: seq<Byte>, n: nat) {
    n <= |b| == |c| && forall k :: 0 <= k < n ==> c[k] == b[k]
  }

  lemma SameRecord(b: seq<Byte>, c: seq<Byte>, at: nat, n: nat)
    requires UsedAt(b, at) && SameBefore(b, c, n) && at + HeaderAt(b, at).recLen <= n
    ensures UsedAt(c, at) && HeaderAt(c, at) == HeaderAt(b, at) && RecordAt(c, at) == RecordAt(b, at)
  {
    var h := HeaderAt(b, at);
    assert HeaderAt(c, at) == h;
    assert c[at + ENTRY_HEADER..at + ENTRY_HEADER + h.nameLen] == b[at + ENTRY_HEADER..at + ENTRY_HEADER + h.nameLen];
  }

  lemma Step(b: seq<Byte>, at: nat, next: nat)
    requires UsedAt(b, at) && next == at + HeaderAt(b, at).recLen
    ensures Records(b, at) == [RecordAt(b, at)] + Records(b, next) && End(b, at) == End(b, next) &&
            at < next <= End(b, at)
    ensures Tiled(b, at) <==> at % 4 == 0 && Tiled(b, next)
  {
  }

  /** Records before the first changed byte are untouched. */
  lemma {:induction false} ChangedBehind(b: seq<Byte>, c: seq<Byte>, at: nat)
    requires Tiled(b, at) && SameBefore(b, c, End(b, at)) && Tiled(c, End(b, at))
    ensures Tiled(c, at) && Records(c, at) == Records(b, at) + Records(c, End(b, at)) &&
            End(c, at) == End(c, End(b, at))
    decreases BLOCK_SIZE - at
  {
    if UsedAt(b, at) {
      var next := at + HeaderAt(b, at).recLen;
      Step(b, at, next);
      SameRecord(b, c, at, End(b, at));
      ChangedBehind(b, c, next);
      Step(c, at, next);
      Joined(RecordAt(b, at), Records(b, next), Records(c, End(b, at)));
    }
  }

  lemma Joined<T>(x: T, ys: seq<T>, zs: seq<T>)
    ensures [x] + (ys + zs) == ([x] + ys) + zs
  {
  }

  lemma HeaderRead(c: seq<Byte>, at: nat, h: Header)
    requires h.inode < WORD && h.recLen < 0x1_0000 && h.nameLen < 256 && h.fileType < 256
    requires at + ENTRY_HEADER <= |c| && c[at..at + ENTRY_HEADER] == HeaderBytes(h)
    ensures HeaderAt(c, at) == h
  {
    forall k: nat | k < ENTRY_HEADER
      ensures c[at + k] == HeaderBytes(h)[k]
    {
      assert c[at..at + ENTRY_HEADER][k] == c[at + k];
    }
    assert HeaderAt(HeaderBytes(h), 0) == h;
  }

  lemma SubSlice(c: seq<Byte>, at: nat, bytes: seq<Byte>, i: nat, j: nat)
    requires at + |bytes| <= |c| && c[at..at + |bytes|] == bytes && i <= j <= |bytes|
    ensures c[at + i..at + j] == bytes[i..j]
  {
    forall k | i <= k < j
      ensures c[at + k] == bytes[k]
    {
      assert c[at..at + |bytes|][k] == c[at + k];
    }
  }

  /** A header among the bytes written at `at`. */
  lemma HeaderInside(c: seq<Byte>, at: nat, bytes: seq<Byte>, i: nat, h: Header)
    requires h.inode < WORD && h.recLen < 0x1_0000 && h.nameLen < 256 && h.fileType < 256
    requires at + |bytes| <= |c| && c[at..at + |bytes|] == bytes
    requires i + ENTRY_HEADER <= |bytes| && bytes[i..i + ENTRY_HEADER] == HeaderBytes(h)
    ensures HeaderAt(c, at + i) == h
  {
    SubSlice(c, at, bytes, i, i + ENTRY_HEADER);
    var from, to := at + i, at + (i + ENTRY_HEADER);
    assert c[from..to] == HeaderBytes(h) && to == from + ENTRY_HEADER;
    HeaderRead(c, from, h);
  }

  lemma RecordParts(r: Record, room: nat)
    requires r.inode < WORD && 0 < r.fileType < 256 && LegalName(r.name)
    requires RecLen(|r.name|) <= room <= BLOCK_SIZE
    ensures var bytes := RecordBytes(r, room);
            var need := RecLen(|r.name|);
            && |bytes| >= need && bytes[0..ENTRY_HEADER] == HeaderBytes(NewHeader(r, room))
            && bytes[ENTRY_HEADER..ENTRY_HEADER + |r.name|] == r.name
            && (room >= need + ENTRY_HEADER ==>
                  && |bytes| == need + ENTRY_HEADER
                  && bytes[need..need + ENTRY_HEADER] == HeaderBytes(Header(0, room - need, 0, FT_UNKNOWN)))
            && (room < need + ENTRY_HEADER ==> |bytes| == need)
  {
  }

  /** What the bytes of a record say when read back. */
  lemma RecordWritten(c: seq<Byte>, at: nat, r: Record, room: nat)
    requires |c| == BLOCK_SIZE && at % 4 == 0 && at + room == BLOCK_SIZE && room % 4 == 0
    requires r.inode < WORD && 0 < r.fileType < 256 && LegalName(r.name) && RecLen(|r.name|) <= room
    requires |RecordBytes(r, room)| <= room && c[at..at + |RecordBytes(r, room)|] == RecordBytes(r, room)
    ensures UsedAt(c, at) && RecordAt(c, at) == r && HeaderAt(c, at) == NewHeader(r, room)
  {
    HeaderWritten(c, at, r, room);
    NameWritten(c, at, r, room);
  }

  lemma HeaderWritten(c: seq<Byte>, at: nat, r: Record, room: nat)
    requires |c| == BLOCK_SIZE && at + room == BLOCK_SIZE
    requires r.inode < WORD && 0 < r.fileType < 256 && LegalName(r.name) && RecLen(|r.name|) <= room
    requires |RecordBytes(r, room)| <= room && c[at..at + |RecordBytes(r, room)|] == RecordBytes(r, room)
    ensures HeaderAt(c, at) == NewHeader(r, room)
  {
    RecordParts(r, room);
    HeaderInside(c, at, RecordBytes(r, room), 0, NewHeader(r, room));
  }

  lemma NameWritten(c: seq<Byte>, at: nat, r: Record, room: nat)
    requires |c| == BLOCK_SIZE && at + room == BLOCK_SIZE
    requires r.inode < WORD && 0 < r.fileType < 256 && LegalName(r.name) && RecLen(|r.name|) <= room
    requires |RecordBytes(r, room)| <= room && c[at..at + |RecordBytes(r, room)|] == RecordBytes(r, room)
    ensures at + ENTRY_HEADER + |r.name| <= |c| && c[at + ENTRY_HEADER..at + ENTRY_HEADER + |r.name|] == r.name
  {
    RecordParts(r, room);
    SubSlice(c, at, RecordBytes(r, room), ENTRY_HEADER, ENTRY_HEADER + |r.name|);
  }

  lemma PaddingWritten(c: seq<Byte>, at: nat, r: Record, room: nat)
    requires |c| == BLOCK_SIZE && at + room == BLOCK_SIZE && NeedsPadding(r, room)
    requires r.inode < WORD && 0 < r.fileType < 256 && LegalName(r.name)
    requires |RecordBytes(r, room)| <= room && c[at..at + |RecordBytes(r, room)|] == RecordBytes(r, room)
    ensures PaddingAt(c, at + RecLen(|r.name|))
  {
    var need := RecLen(|r.name|);
    RecordParts(r, room);
    HeaderInside(c, at, RecordBytes(r, room), need, Header(0, room - need, 0, FT_UNKNOWN));
  }

  lemma NoRecord(c: seq<Byte>, at: nat)
    requires |c| == BLOCK_SIZE && at % 4 == 0 && (at == BLOCK_SIZE || PaddingAt(c, at))
    ensures Tiled(c, at) && Records(c, at) == [] && End(c, at) == at
  {
    assert !UsedAt(c, at);
  }

  /** A last record, with padding behind it or none. */
  lemma LastRecord(c: seq<Byte>, at: nat, next: nat)
    requires UsedAt(c, at) && at % 4 == 0 && next == at + HeaderAt(c, at).recLen
    requires next == BLOCK_SIZE || PaddingAt(c, next)
    ensures Tiled(c, at) && Records(c, at) == [RecordAt(c, at)] && End(c, at) == next
  {
    NoRecord(c, next);
    Step(c, at, next);
  }

  ghost predicate CanWrite(r: Record, room: nat) {
    r.inode < WORD && 0 < r.fileType < 256 && LegalName(r.name) && RecLen(|r.name|) <= room <= BLOCK_SIZE &&
      room % 4 == 0
  }

  /** The bytes of the record are in the block, where its room begins. */
  ghost predicate Written(c: seq<Byte>, at: nat, r: Record, room: nat) {
    && CanWrite(r, room) && |c| == BLOCK_SIZE && at + room == BLOCK_SIZE && |RecordBytes(r, room)| <= room
    && c[at..at + |RecordBytes(r, room)|] == RecordBytes(r, room)
  }

  /** The room that a record of a name of that length leaves. */
  function RoomAfter(len: nat, room: nat): nat {
    if room >= RecLen(len) + ENTRY_HEADER then room - RecLen(len) else 0
  }

  lemma WrittenTail(c: seq<Byte>, at: nat, r: Record, room: nat)
    requires Written(c, at, r, room)
    ensures Tiled(c, at) && Records(c, at) == [r] && End(c, at) == BLOCK_SIZE - RoomAfter(|r.name|, room)
  {
    RecordWritten(c, at, r, room);
    if NeedsPadding(r, room) {
      PaddingWritten(c, at, r, room);
    }
    LastRecord(c, at, at + NewHeader(r, room).recLen);
  }

  lemma RoomMeans(b: seq<Byte>)
    requires Tiled(b, 0)
    ensures End(b, 0) + Room(b) == BLOCK_SIZE && Room(b) % 4 == 0
  {
    EndTiled(b, 0);
  }

  /** A block that has the bytes of a record at the end of its records has that record too. */
  lemma Inserted(b: seq<Byte>, c: seq<Byte>, r: Record, at: nat, room: nat)
    requires Tiled(b, 0) && at == End(b, 0) && room == Room(b)
    requires SameBefore(b, c, at) && Written(c, at, r, room)
    ensures Tiled(c, 0) && Records(c, 0) == Records(b, 0) + [r] && Room(c) == RoomAfter(|r.name|, room)
  {
    WrittenTail(c, at, r, room);
    ChangedBehind(b, c, 0);
  }

  // ----- looking names up

  /** The inode of the first record of that name; 0 when there is none. */
  function Find(rs: seq<Record>, name: seq<Byte>): nat {
    if rs == [] then 0 else if rs[0].name == name then rs[0].inode else Find(rs[1..], name)
  }

  ghost predicate Names(rs: seq<Record>, name: seq<Byte>) {
    exists i :: 0 <= i < |rs| && rs[i].name == name
  }

  lemma {:induction false} FindSplit(rs: seq<Record>, ts: seq<Record>, name: seq<Byte>)
    ensures Names(rs, name) ==> Find(rs + ts, name) == Find(rs, name)
    ensures !Names(rs, name) ==> Find(rs + ts, name) == Find(ts, name) && Find(rs, name) == 0
  {
    if rs == [] {
      assert rs + ts == ts;
    } else {
      assert (rs + ts)[1..] == rs[1..] + ts;
      FindSplit(rs[1..], ts, name);
      assert Names(rs[1..], name) ==> Names(rs, name) by {
        if Names(rs[1..], name) {
          var i :| 0 <= i < |rs[1..]| && rs[1..][i].name == name;
          assert rs[i + 1].name == name;
        }
      }
      if Names(rs, name) && rs[0].name != name {
        var i :| 0 <= i < |rs| && rs[i].name == name;
        assert rs[1..][i - 1].name == name;
      }
    }
  }

  /** A new name resolves to its inode, and all others resolve as before. */
  lemma FindAfterInsert(rs: seq<Record>, r: Record, name: seq<Byte>)
    requires !Names(rs, r.name)
    ensures Find(rs + [r], name) == if name == r.name then r.inode else Find(rs, name)
  {
    FindSplit(rs, [r], name);
    assert Find([r], name) == if r.name == name then r.inode else Find([r][1..], name);
  }
}
