/** ELF files put together from their parts, and what is found in them when they are loaded. */
module ElfBuilder {
  import opened Units
  import opened Bytes
  import opened AddressSpace
  import opened UserImages
  import opened UserTables
  import opened ElfFile
  import opened LoadOrder
  import opened ProgramOrder

  /** The header of the file, with all its fields. */
  datatype FileHeader = FileHeader(ident: seq<Byte>, kind: nat, machine: nat, version: nat, entry: nat, phoff: nat,
                                   shoff: nat, flags: nat, ehsize: nat, phentsize: nat, phnum: nat, shentsize: nat,
                                   shnum: nat, shstrndx: nat) {
    predicate Fits() {
      && |ident| == 16 && kind < 0x1_0000 && machine < 0x1_0000 && version < WORD && entry < WORD && phoff < WORD
      && shoff < WORD && flags < WORD && ehsize < 0x1_0000 && phentsize < 0x1_0000 && phnum < 0x1_0000
      && shentsize < 0x1_0000 && shnum < 0x1_0000 && shstrndx < 0x1_0000
    }

    /** What the loader asks of a file of that size: its first bytes, an executable, and a table inside. */
    predicate Accepted(size: nat)
      requires |ident| == 16
    {
      ident[..4] == [127, 69, 76, 70] && kind == 2 && 0 < phoff < size && (phoff + phentsize * phnum) % WORD <= size
    }
  }

  /** A program header, with all its fields. */
  datatype FullHeader = FullHeader(kind: nat, offset: nat, vaddr: nat, paddr: nat, filesz: nat, memsz: nat,
                                   flags: nat, align: nat) {
    predicate Fits() {
      && kind < WORD && offset < WORD && vaddr < WORD && paddr < WORD && filesz < WORD && memsz < WORD
      && flags < WORD && align < WORD
    }
  }

  /** The fields one after the other, each as wide as it is. */
  function EncodeFileHeader(h: FileHeader): (s: seq<Byte>)
    requires h.Fits()
    ensures |s| == ELF_HEADER_SIZE
  {
    h.ident + Encode16(h.kind) + Encode16(h.machine) + Encode32(h.version) + Encode32(h.entry) + Encode32(h.phoff)
    + Encode32(h.shoff) + Encode32(h.flags) + Encode16(h.ehsize) + Encode16(h.phentsize) + Encode16(h.phnum)
    + Encode16(h.shentsize) + Encode16(h.shnum) + Encode16(h.shstrndx)
  }

  function EncodeFullHeader(h: FullHeader): (s: seq<Byte>)
    requires h.Fits()
    ensures |s| == PROG_HEADER_SIZE
  {
    Encode32(h.kind) + Encode32(h.offset) + Encode32(h.vaddr) + Encode32(h.paddr) + Encode32(h.filesz)
    + Encode32(h.memsz) + Encode32(h.flags) + Encode32(h.align)
  }

  /** There are these bytes at `at`. */
  predicate Lies(file: seq<Byte>, at: nat, bytes: seq<Byte>) {
    at + |bytes| <= |file| && file[at..at + |bytes|] == bytes
  }

  lemma LiesInside(file: seq<Byte>, at: nat, bytes: seq<Byte>, i: nat, part: seq<Byte>)
    requires Lies(file, at, bytes) && i + |part| <= |bytes| && bytes[i..i + |part|] == part
    ensures Lies(file, at + i, part)
  {
    var found := file[at + i..at + i + |part|];
    forall k: nat | k < |part|
      ensures found[k] == part[k]
    {
      assert found[k] == file[at..at + |bytes|][i + k] && part[k] == bytes[i..i + |part|][k];
    }
  }

  lemma WordLies(file: seq<Byte>, at: nat, w: nat)
    requires w < WORD && Lies(file, at, Encode32(w))
    ensures Word32(file, at) == w
  {
    var s := Encode32(w);
    assert forall k :: 0 <= k < 4 ==> file[at + k] == s[k];
    assert Word32(file, at) == Word32(s, 0);
  }

  lemma HalfLies(file: seq<Byte>, at: nat, w: nat)
    requires w < 0x1_0000 && Lies(file, at, Encode16(w))
    ensures Word16(file, at) == w
  {
    var s := Encode16(w);
    assert forall k :: 0 <= k < 2 ==> file[at + k] == s[k];
    assert Word16(file, at) == Word16(s, 0);
  }

  lemma Field32(file: seq<Byte>, at: nat, bytes: seq<Byte>, i: nat, w: nat)
    requires Lies(file, at, bytes) && i + 4 <= |bytes| && w < WORD && bytes[i..i + 4] == Encode32(w)
    ensures Word32(file, at + i) == w
  {
    LiesInside(file, at, bytes, i, Encode32(w));
    WordLies(file, at + i, w);
  }

  lemma Field16(file: seq<Byte>, at: nat, bytes: seq<Byte>, i: nat, w: nat)
    requires Lies(file, at, bytes) && i + 2 <= |bytes| && w < 0x1_0000 && bytes[i..i + 2] == Encode16(w)
    ensures Word16(file, at + i) == w
  {
    LiesInside(file, at, bytes, i, Encode16(w));
    HalfLies(file, at + i, w);
  }

  lemma FullHeaderFields(h: FullHeader)
    requires h.Fits()
    ensures var s := EncodeFullHeader(h);
            && s[0..4] == Encode32(h.kind) && s[4..8] == Encode32(h.offset) && s[8..12] == Encode32(h.vaddr)
            && s[16..20] == Encode32(h.filesz) && s[20..24] == Encode32(h.memsz)
  {
  }

  /** Wherever a program header lies, the loader reads its fields. */
  lemma FullHeaderReadsBack(file: seq<Byte>, at: nat, h: FullHeader)
    requires h.Fits() && Lies(file, at, EncodeFullHeader(h))
    ensures HeaderAt(file, at) == ProgHeader(h.kind, h.offset, h.vaddr, h.filesz, h.memsz)
  {
    var s := EncodeFullHeader(h);
    FullHeaderFields(h);
    Field32(file, at, s, 0, h.kind);
    Field32(file, at, s, 4, h.offset);
    Field32(file, at, s, 8, h.vaddr);
    Field32(file, at, s, 16, h.filesz);
    Field32(file, at, s, 20, h.memsz);
  }

  lemma FileHeaderFields(h: FileHeader)
    requires h.Fits()
    ensures var s := EncodeFileHeader(h);
            && s[0..16] == h.ident && s[16..18] == Encode16(h.kind) && s[24..28] == Encode32(h.entry)
            && s[28..32] == Encode32(h.phoff) && s[42..44] == Encode16(h.phentsize) && s[44..46] == Encode16(h.phnum)
  {
  }

  /** The loader reads the fields of the file's header, and accepts it by these. */
  lemma FileHeaderReadsBack(file: seq<Byte>, h: FileHeader)
    requires h.Fits() && Lies(file, 0, EncodeFileHeader(h))
    ensures EntryPoint(file) == h.entry && TableOffset(file) == h.phoff
    ensures TableEntrySize(file) == h.phentsize && TableEntries(file) == h.phnum
    ensures HeaderAccepted(file) <==> h.Accepted(|file|)
  {
    var s := EncodeFileHeader(h);
    FileHeaderFields(h);
    Field16(file, 0, s, 16, h.kind);
    Field32(file, 0, s, 24, h.entry);
    Field32(file, 0, s, 28, h.phoff);
    Field16(file, 0, s, 42, h.phentsize);
    Field16(file, 0, s, 44, h.phnum);
    IdentLies(file, s, h.ident);
  }

  lemma IdentLies(file: seq<Byte>, s: seq<Byte>, ident: seq<Byte>)
    requires Lies(file, 0, s) && |s| >= 16 && s[0..16] == ident
    ensures ident[..4] == [127, 69, 76, 70] <==>
            file[0] == 127 && file[1] == 69 && file[2] == 76 && file[3] == 70
  {
    LiesInside(file, 0, s, 0, ident);
    assert forall k :: 0 <= k < 16 ==> file[k] == ident[k];
    FirstFour(ident);
  }

  lemma FirstFour(ident: seq<Byte>)
    requires |ident| == 16
    ensures ident[..4] == [127, 69, 76, 70] <==>
            ident[0] == 127 && ident[1] == 69 && ident[2] == 76 && ident[3] == 70
  {
    var four := ident[..4];
    assert four[0] == ident[0] && four[1] == ident[1] && four[2] == ident[2] && four[3] == ident[3];
  }

  // ----- a file put together

  /** A segment: its kind, where it goes, how much memory it has, and what it holds in the file. */
  datatype Segment = Segment(kind: nat, vaddr: nat, memsz: nat, content: seq<Byte>) {
    predicate Fits() {
      kind < WORD && vaddr < WORD && memsz < WORD
    }

    predicate Loaded() {
      kind == 1 || kind == 6
    }
  }

  function ContentsOf(segments: seq<Segment>): seq<Byte> {
    if segments == [] then [] else segments[0].content + ContentsOf(segments[1..])
  }

  /** The program headers, for contents that begin at `at`. */
  function FullHeaders(segments: seq<Segment>, at: nat): seq<FullHeader> {
    if segments == [] then []
    else
      var s := segments[0];
      [FullHeader(s.kind, at, s.vaddr, s.vaddr, |s.content|, s.memsz, 7, PAGE_SIZE)]
      + FullHeaders(segments[1..], at + |s.content|)
  }

  function EncodeTable(headers: seq<FullHeader>): (s: seq<Byte>)
    requires forall i :: 0 <= i < |headers| ==> headers[i].Fits()
    ensures |s| == PROG_HEADER_SIZE * |headers|
  {
    if headers == [] then [] else EncodeFullHeader(headers[0]) + EncodeTable(headers[1..])
  }

  /** Where the contents begin. */
  function ContentStart(segments: seq<Segment>): nat {
    ELF_HEADER_SIZE + PROG_HEADER_SIZE * |segments|
  }

  predicate Buildable(entry: nat, segments: seq<Segment>) {
    entry < WORD && |segments| < 0x1_0000 && forall i :: 0 <= i < |segments| ==> segments[i].Fits()
  }

  function BuiltHeader(entry: nat, n: nat): FileHeader {
    FileHeader([127, 69, 76, 70] + Zeros(12), 2, 3, 1, entry, ELF_HEADER_SIZE, 0, 0, ELF_HEADER_SIZE,
               PROG_HEADER_SIZE, n, 0, 0, 0)
  }

  lemma {:induction false} FullHeadersFit(segments: seq<Segment>, at: nat)
    requires forall i :: 0 <= i < |segments| ==> segments[i].Fits()
    requires at + |ContentsOf(segments)| < WORD
    ensures |FullHeaders(segments, at)| == |segments|
    ensures forall i :: 0 <= i < |segments| ==> FullHeaders(segments, at)[i].Fits()
    decreases |segments|
  {
    if segments != [] {
      FullHeadersFit(segments[1..], at + |segments[0].content|);
    }
  }

  function BuiltTable(entry: nat, segments: seq<Segment>): seq<Byte>
    requires Buildable(entry, segments) && ContentStart(segments) + |ContentsOf(segments)| < WORD
  {
    FullHeadersFit(segments, ContentStart(segments));
    EncodeTable(FullHeaders(segments, ContentStart(segments)))
  }

  /** Header, table and contents lie one after the other in the file, which goes on behind them. */
  ghost predicate LaidOut(file: seq<Byte>, entry: nat, segments: seq<Segment>) {
    |file| >= ELF_HEADER_SIZE && forall k: int {:trigger LaidOutKey(k)} :: LaidOutKey(k) ==>
      LaidOutBody(file, entry, segments)
  }

  /** Keeps `LaidOut` closed: what it says is in view only where a key is stated. */
  ghost predicate LaidOutKey(k: int) {
    true
  }

  ghost predicate LaidOutBody(file: seq<Byte>, entry: nat, segments: seq<Segment>) {
    && Buildable(entry, segments) && ContentStart(segments) + |ContentsOf(segments)| < |file| < WORD
    && Lies(file, 0, EncodeFileHeader(BuiltHeader(entry, |segments|)))
    && Lies(file, ELF_HEADER_SIZE, BuiltTable(entry, segments))
    && Lies(file, ContentStart(segments), ContentsOf(segments))
  }

  /** There are such files. */
  lemma Build(entry: nat, segments: seq<Segment>, tail: seq<Byte>) returns (file: seq<Byte>)
    requires Buildable(entry, segments) && tail != []
    requires ContentStart(segments) + |ContentsOf(segments)| + |tail| < WORD
    ensures LaidOut(file, entry, segments) && |file| == ContentStart(segments) + |ContentsOf(segments)| + |tail|
  {
    FullHeadersFit(segments, ContentStart(segments));
    var header, table := EncodeFileHeader(BuiltHeader(entry, |segments|)), BuiltTable(entry, segments);
    file := header + table + ContentsOf(segments) + tail;
    Concatenated(header, table, ContentsOf(segments), tail);
  }

  /** Where the content of segment `i` lies, if the first begins at `at`. */
  function ContentAt(segments: seq<Segment>, at: nat, i: nat): (o: nat)
    requires i < |segments|
    ensures at <= o && o + |segments[i].content| <= at + |ContentsOf(segments)|
  {
    if i == 0 then at else ContentAt(segments[1..], at + |segments[0].content|, i - 1)
  }

  lemma {:induction false} ContentLies(file: seq<Byte>, segments: seq<Segment>, at: nat, i: nat)
    requires i < |segments| && Lies(file, at, ContentsOf(segments))
    ensures Lies(file, ContentAt(segments, at, i), segments[i].content)
    decreases i
  {
    var first := segments[0].content;
    if i == 0 {
      LiesInside(file, at, ContentsOf(segments), 0, first);
    } else {
      LiesInside(file, at, ContentsOf(segments), |first|, ContentsOf(segments[1..]));
      ContentLies(file, segments[1..], at + |first|, i - 1);
    }
  }

  lemma {:induction false} FullHeaderIs(segments: seq<Segment>, at: nat, i: nat)
    requires i < |segments|
    ensures |FullHeaders(segments, at)| == |segments|
    ensures var s := segments[i];
            FullHeaders(segments, at)[i]
            == FullHeader(s.kind, ContentAt(segments, at, i), s.vaddr, s.vaddr, |s.content|, s.memsz, 7, PAGE_SIZE)
    decreases |segments|
  {
    if i > 0 {
      FullHeaderIs(segments[1..], at + |segments[0].content|, i - 1);
    } else if |segments| > 1 {
      FullHeaderIs(segments[1..], at + |segments[0].content|, 0);
    }
  }

  /** Header `i` is `i` entries behind the table's place, whatever the size of an entry. */
  lemma {:induction false} HeadersEntry(file: seq<Byte>, at: nat, entrySize: nat, n: nat, i: nat)
    requires i < n
    ensures Headers(file, at, entrySize, n)[i] == HeaderAt(file, at + i * entrySize)
    decreases n
  {
    if i > 0 {
      HeadersEntry(file, at + entrySize, entrySize, n - 1, i - 1);
      NextEntry(at, entrySize, i);
    }
  }

  lemma NextEntry(at: nat, entrySize: nat, i: nat)
    requires i > 0
    ensures at + entrySize + (i - 1) * entrySize == at + i * entrySize
  {
  }

  /** The loader finds every header of a table that lies in the file. */
  lemma {:induction false} TableReadsBack(file: seq<Byte>, at: nat, headers: seq<FullHeader>, i: nat)
    requires (forall j :: 0 <= j < |headers| ==> headers[j].Fits()) && Lies(file, at, EncodeTable(headers))
    requires i < |headers|
    ensures var h := headers[i];
            Headers(file, at, PROG_HEADER_SIZE, |headers|)[i]
            == ProgHeader(h.kind, h.offset, h.vaddr, h.filesz, h.memsz)
    decreases |headers|
  {
    var first, rest := EncodeFullHeader(headers[0]), EncodeTable(headers[1..]);
    LiesInside(file, at, EncodeTable(headers), 0, first);
    LiesInside(file, at, EncodeTable(headers), PROG_HEADER_SIZE, rest);
    FullHeaderReadsBack(file, at, headers[0]);
    if i > 0 {
      TableReadsBack(file, at + PROG_HEADER_SIZE, headers[1..], i - 1);
    }
  }

  lemma {:induction false} TableReadable(file: seq<Byte>, at: nat, n: nat)
    requires at + PROG_HEADER_SIZE * n <= |file|
    ensures Readable(file, at, PROG_HEADER_SIZE, n)
    decreases n
  {
    if n > 0 {
      TableReadable(file, at + PROG_HEADER_SIZE, n - 1);
    }
  }

  lemma Concatenated(a: seq<Byte>, b: seq<Byte>, c: seq<Byte>, d: seq<Byte>)
    ensures var s := a + b + c + d;
            Lies(s, 0, a) && Lies(s, |a|, b) && Lies(s, |a| + |b|, c)
  {
    var s := a + b + c + d;
    assert s[0..|a|] == a;
    assert s[|a|..|a| + |b|] == b;
    assert s[|a| + |b|..|a| + |b| + |c|] == c;
  }

  // ----- and loaded

  lemma BuiltHeaderReadsBack(file: seq<Byte>, entry: nat, segments: seq<Segment>)
    requires LaidOut(file, entry, segments)
    ensures EntryPoint(file) == entry && TableOffset(file) == ELF_HEADER_SIZE
    ensures TableEntrySize(file) == PROG_HEADER_SIZE && TableEntries(file) == |segments| && HeaderAccepted(file)
  {
    assert LaidOutKey(0);
    FileHeaderReadsBack(file, BuiltHeader(entry, |segments|));
    BuiltHeaderAccepted(entry, |segments|, |file|);
  }

  lemma BuiltHeaderAccepted(entry: nat, n: nat, size: nat)
    requires ELF_HEADER_SIZE + PROG_HEADER_SIZE * n < size < WORD
    ensures BuiltHeader(entry, n).Accepted(size)
  {
    assert ([127, 69, 76, 70] + Zeros(12))[..4] == [127, 69, 76, 70];
  }

  /** The header of a segment, as the loader should find it. */
  function FoundHeader(segments: seq<Segment>, i: nat): ProgHeader
    requires i < |segments|
  {
    ProgHeader(segments[i].kind, ContentAt(segments, ContentStart(segments), i), segments[i].vaddr,
               |segments[i].content|, segments[i].memsz)
  }

  lemma BuiltTableReadsBack(file: seq<Byte>, entry: nat, segments: seq<Segment>, i: nat)
    requires LaidOut(file, entry, segments) && i < |segments|
    ensures Headers(file, ELF_HEADER_SIZE, PROG_HEADER_SIZE, |segments|)[i] == FoundHeader(segments, i)
  {
    assert LaidOutKey(0);
    FullHeadersFit(segments, ContentStart(segments));
    TableReadsBack(file, ELF_HEADER_SIZE, FullHeaders(segments, ContentStart(segments)), i);
    FullHeaderIs(segments, ContentStart(segments), i);
  }

  /** The headers that the loader finds are those of the segments, and the entry point is the one asked for. */
  lemma BuiltReadsBack(file: seq<Byte>, entry: nat, segments: seq<Segment>)
    requires LaidOut(file, entry, segments)
    ensures HeaderAccepted(file) && EntryPoint(file) == entry && |ProgHeaders(file)| == |segments|
    ensures Readable(file, TableOffset(file), TableEntrySize(file), TableEntries(file))
    ensures forall i :: 0 <= i < |segments| ==> ProgHeaders(file)[i] == FoundHeader(segments, i)
  {
    assert LaidOutKey(0);
    BuiltHeaderReadsBack(file, entry, segments);
    TableReadable(file, ELF_HEADER_SIZE, |segments|);
    forall i | 0 <= i < |segments|
      ensures ProgHeaders(file)[i] == FoundHeader(segments, i)
    {
      BuiltTableReadsBack(file, entry, segments, i);
    }
  }

  /** Every segment to be loaded is below the kernel and has memory for its content. */
  predicate Sized(segments: seq<Segment>) {
    forall i :: 0 <= i < |segments| && segments[i].Loaded() ==> |segments[i].content| <= segments[i].memsz
  }

  predicate BelowKernel(segments: seq<Segment>) {
    forall i :: 0 <= i < |segments| && segments[i].Loaded() ==> segments[i].vaddr + segments[i].memsz <= 0xC000_0000
  }

  /** The segment has a byte of memory in the page. */
  ghost predicate Covers(s: Segment, page: nat) {
    exists a: nat :: s.vaddr <= a < s.vaddr + s.memsz && a / PAGE_SIZE == page
  }

  /** No page has bytes of two segments to be loaded, or of one and a stack. */
  ghost predicate PagesApart(segments: seq<Segment>) {
    && (forall i, j, page: nat :: 0 <= i < j < |segments| && segments[i].Loaded() && segments[j].Loaded() ==>
        !(Covers(segments[i], page) && Covers(segments[j], page)))
    && forall i :: 0 <= i < |segments| && segments[i].Loaded() ==>
      !Covers(segments[i], 0xBFFE_F) && !Covers(segments[i], 0xBFBF_F)
  }

  lemma TouchesCovers(ph: ProgHeader, s: Segment, page: nat)
    requires ph.vaddr == s.vaddr && ph.memsz == s.memsz
    ensures ph.Touches(page) <==> Covers(s, page)
  {
    if ph.Touches(page) {
      var a := if page == ph.FirstPage() then s.vaddr else page * PAGE_SIZE;
      assert s.vaddr <= a < s.vaddr + s.memsz && a / PAGE_SIZE == page;
    }
  }

  lemma BuiltApart(file: seq<Byte>, entry: nat, segments: seq<Segment>)
    requires LaidOut(file, entry, segments)
    ensures MappedOnce(ProgHeaders(file)) <==> PagesApart(segments)
  {
    BuiltReadsBack(file, entry, segments);
    var headers := ProgHeaders(file);
    assert KERNEL_STACK_PAGE == 0xBFFE_F && USER_STACK_PAGE == 0xBFBF_F;
    forall i, page: nat | 0 <= i < |segments|
      ensures headers[i].Touches(page) <==> Covers(segments[i], page)
    {
      TouchesCovers(headers[i], segments[i], page);
    }
  }

  /** The pages of a loaded program are those where a segment has bytes, and its two stacks. */
  lemma BuiltPages(file: seq<Byte>, entry: nat, segments: seq<Segment>, page: nat)
    requires LaidOut(file, entry, segments)
    ensures page in ProgramImage(file) <==>
            || page == 0xBFFE_F || page == 0xBFBF_F
            || exists i :: 0 <= i < |segments| && segments[i].Loaded() && Covers(segments[i], page)
  {
    BuiltReadsBack(file, entry, segments);
    var headers := ProgHeaders(file);
    assert KERNEL_STACK_PAGE == 0xBFFE_F && USER_STACK_PAGE == 0xBFBF_F;
    WithSegmentsAt(file, headers, page);
    forall i | 0 <= i < |segments|
      ensures headers[i].Loaded() && headers[i].Touches(page) <==> segments[i].Loaded() && Covers(segments[i], page)
    {
      TouchesCovers(headers[i], segments[i], page);
    }
  }

  lemma FoundAccepted(segments: seq<Segment>, i: nat, size: nat)
    requires i < |segments| && ContentStart(segments) + |ContentsOf(segments)| < size < WORD
    ensures var ph, s := FoundHeader(segments, i), segments[i];
            && (ph.Loaded() <==> s.Loaded()) && (ph.Accepted(size) <==> |s.content| <= s.memsz)
            && (s.vaddr + s.memsz <= 0xC000_0000 ==> ph.Placed())
  {
    assert KERNEL_BASE == 0xC000_0000;
  }

  lemma BuiltAccepted(file: seq<Byte>, entry: nat, segments: seq<Segment>)
    requires LaidOut(file, entry, segments)
    ensures Wellformed(file) <==> Sized(segments)
    ensures BelowKernel(segments) ==> Loadable(file)
  {
    assert LaidOutKey(0);
    BuiltReadsBack(file, entry, segments);
    var headers := ProgHeaders(file);
    forall i | 0 <= i < |segments|
      ensures headers[i].Loaded() <==> segments[i].Loaded()
      ensures headers[i].Accepted(|file|) <==> |segments[i].content| <= segments[i].memsz
      ensures segments[i].vaddr + segments[i].memsz <= 0xC000_0000 ==> headers[i].Placed()
    {
      FoundAccepted(segments, i, |file|);
    }
    AllSized(headers, segments, |file|);
  }

  lemma AllSized(headers: seq<ProgHeader>, segments: seq<Segment>, size: nat)
    requires |headers| == |segments|
    requires forall i :: 0 <= i < |segments| ==>
      && (headers[i].Loaded() <==> segments[i].Loaded())
      && (headers[i].Accepted(size) <==> |segments[i].content| <= segments[i].memsz)
      && (segments[i].vaddr + segments[i].memsz <= 0xC000_0000 ==> headers[i].Placed())
    ensures (AllAccepted(headers, size) <==> Sized(segments)) && (BelowKernel(segments) ==> AllPlaced(headers))
  {
  }

  /**
   A file put together from segments is loaded exactly if each has memory for its content, no page has bytes of two
   of them or of one and a stack, and memory suffices; the entry point is the one asked for.
   */
  lemma BuiltLoads(free: nat, file: seq<Byte>, entry: nat, segments: seq<Segment>)
    requires LaidOut(file, entry, segments) && BelowKernel(segments)
    ensures Loadable(file) && EntryPoint(file) == entry
    ensures Wellformed(file) && MappedOnce(ProgHeaders(file)) <==> Sized(segments) && PagesApart(segments)
    ensures ElfOutcome(free, file) == Loading.Loaded <==>
            Sized(segments) && PagesApart(segments) && free >= Weight(ProgramImage(file).Keys)
  {
    BuiltReadsBack(file, entry, segments);
    BuiltAccepted(file, entry, segments);
    BuiltApart(file, entry, segments);
    LoadedExactly(free, file);
  }

  /** What a process has at an address: nothing it may write, or a byte. */
  datatype Found = NoPage | UserByte(value: Byte)

  function ByteAt(image: Image, a: nat): Found {
    var v := a / PAGE_SIZE;
    if v in image && image[v].flags == USER_WRITABLE && image[v].content.Data?
       && |image[v].content.bytes| == PAGE_SIZE
    then UserByte(image[v].content.bytes[a % PAGE_SIZE])
    else NoPage
  }

  /** Byte `k` of the content, and zero behind it. */
  function OrZero(content: seq<Byte>, k: nat): Byte {
    if k < |content| then content[k] else 0
  }

  /** And what is then at an address of a segment is its content there, or zero behind it. */
  lemma BuiltByte(file: seq<Byte>, entry: nat, segments: seq<Segment>, i: nat, a: nat)
    requires LaidOut(file, entry, segments) && PagesApart(segments)
    requires i < |segments| && segments[i].Loaded()
    requires segments[i].vaddr <= a < segments[i].vaddr + segments[i].memsz
    ensures var s := segments[i];
            ByteAt(ProgramImage(file), a) == UserByte(OrZero(s.content, a - s.vaddr))
  {
    BuiltApart(file, entry, segments);
    BuiltContent(file, entry, segments, i);
    ProgramByte(file, i, a, segments[i].vaddr, segments[i].content);
  }

  /** The header found for a segment leads to its content. */
  lemma BuiltContent(file: seq<Byte>, entry: nat, segments: seq<Segment>, i: nat)
    requires LaidOut(file, entry, segments) && i < |segments|
    ensures |ProgHeaders(file)| == |segments|
    ensures var ph, s := ProgHeaders(file)[i], segments[i];
            && (ph.Loaded() <==> s.Loaded()) && ph.vaddr == s.vaddr && ph.memsz == s.memsz
            && ph.filesz == |s.content| && Lies(file, ph.offset, s.content)
  {
    assert LaidOutKey(0);
    BuiltReadsBack(file, entry, segments);
    ContentLies(file, segments, ContentStart(segments), i);
  }

  lemma ProgramByte(file: seq<Byte>, i: nat, a: nat, vaddr: nat, content: seq<Byte>)
    requires |file| >= ELF_HEADER_SIZE && i < |ProgHeaders(file)| && MappedOnce(ProgHeaders(file))
    requires var ph := ProgHeaders(file)[i];
             && ph.Loaded() && ph.vaddr == vaddr <= a < vaddr + ph.memsz
             && Lies(file, ph.offset, content) && ph.filesz == |content|
    ensures ByteAt(ProgramImage(file), a) == UserByte(OrZero(content, a - vaddr))
  {
    LoadedByte(file, ProgHeaders(file), i, a, content);
  }

  /** What `SegmentByte` says, with the stacks in place and for content that lies in the file. */
  lemma LoadedByte(file: seq<Byte>, headers: seq<ProgHeader>, i: nat, a: nat, content: seq<Byte>)
    requires i < |headers| && headers[i].Loaded() && MappedOnce(headers)
    requires headers[i].vaddr <= a < headers[i].vaddr + headers[i].memsz
    requires Lies(file, headers[i].offset, content) && headers[i].filesz == |content|
    ensures ByteAt(WithStacks(WithSegments(map[], file, headers)), a)
            == UserByte(OrZero(content, a - headers[i].vaddr))
  {
    SegmentByte(file, headers, i, a);
    assert headers[i].Touches(a / PAGE_SIZE);
    if a - headers[i].vaddr < |content| {
      assert content[a - headers[i].vaddr]
             == file[headers[i].offset..headers[i].offset + |content|][a - headers[i].vaddr];
    }
  }
}
