/** ELF files: their headers, and the pages that a program should find in its address space. */
module ElfFile {
  import opened Units
  import opened Bytes
  import opened AddressSpace
  import opened UserImages
  import opened UserTables

  const PT_LOAD: nat := 1
  const PT_PHDR: nat := 6
  const ET_EXEC: nat := 2
  const ELF_HEADER_SIZE: nat := 52
  const PROG_HEADER_SIZE: nat := 32

  datatype ProgHeader = ProgHeader(kind: nat, offset: nat, vaddr: nat, filesz: nat, memsz: nat) {
    predicate Loaded() {
      kind == PT_LOAD || kind == PT_PHDR
    }

    /** The header's checks, on 32-bit words. */
    predicate Accepted(size: nat) {
      filesz <= memsz && offset < size && (offset + filesz) % WORD <= size
    }

    function FirstPage(): nat {
      vaddr / PAGE_SIZE
    }

    /** The page after the last one the segment touches. */
    function EndPage(): nat {
      if memsz == 0 then FirstPage() else (vaddr + memsz - 1) / PAGE_SIZE + 1
    }

    /** Nothing wraps, and the segment is below the kernel. */
    ghost predicate Placed() {
      offset + filesz < WORD && vaddr + memsz <= KERNEL_BASE
    }

    ghost predicate Touches(v: nat) {
      FirstPage() <= v < EndPage()
    }
  }

  function ReadProgHeader(file: seq<Byte>, at: nat): ProgHeader
    requires at + PROG_HEADER_SIZE <= |file|
  {
    ProgHeader(Word32(file, at), Word32(file, at + 4), Word32(file, at + 8), Word32(file, at + 16),
               Word32(file, at + 20))
  }

  // ----- what loading should produce

  /** Byte `k` of a page of the segment: from the file up to `filesz`, zero elsewhere. */
  function PageByte(file: seq<Byte>, ph: ProgHeader, page: nat, k: nat): Byte {
    var a := page * PAGE_SIZE + k;
    if ph.vaddr <= a < ph.vaddr + ph.filesz && ph.offset + (a - ph.vaddr) < |file| then file[ph.offset + (a - ph.vaddr)]
    else 0
  }

  function PageBytes(file: seq<Byte>, ph: ProgHeader, page: nat): seq<Byte> {
    seq(PAGE_SIZE, k requires 0 <= k < PAGE_SIZE => PageByte(file, ph, page, k))
  }

  /** The image with the segment's pages before page `n`. */
  ghost function WithPages(image: Image, file: seq<Byte>, ph: ProgHeader, n: nat): Image {
    if n <= ph.FirstPage() then image
    else WithPages(image, file, ph, n - 1)[n - 1 := Mapped(USER_WRITABLE, Data(PageBytes(file, ph, n - 1)))]
  }

  ghost function WithSegment(image: Image, file: seq<Byte>, ph: ProgHeader): Image {
    if ph.Loaded() then WithPages(image, file, ph, ph.EndPage()) else image
  }

  ghost function WithSegments(image: Image, file: seq<Byte>, headers: seq<ProgHeader>): Image {
    if headers == [] then image
    else WithSegment(WithSegments(image, file, headers[..|headers| - 1]), file, headers[|headers| - 1])
  }

  lemma {:induction false} WithPagesAt(image: Image, file: seq<Byte>, ph: ProgHeader, n: nat, v: nat)
    ensures var r := WithPages(image, file, ph, n);
            && (v in r <==> v in image || ph.FirstPage() <= v < n)
            && (ph.FirstPage() <= v < n ==> r[v] == Mapped(USER_WRITABLE, Data(PageBytes(file, ph, v))))
            && (v in image && !(ph.FirstPage() <= v < n) ==> r[v] == image[v])
    decreases n
  {
    if n > ph.FirstPage() {
      WithPagesAt(image, file, ph, n - 1, v);
    }
  }

  /** Loaded segments share no page. */
  ghost predicate PageDisjoint(headers: seq<ProgHeader>) {
    forall i, j, v: nat :: 0 <= i < j < |headers| && headers[i].Loaded() && headers[j].Loaded() ==>
      !(headers[i].Touches(v) && headers[j].Touches(v))
  }

  lemma {:induction false} WithSegmentsAt(file: seq<Byte>, headers: seq<ProgHeader>, v: nat)
    ensures v in WithSegments(map[], file, headers) <==>
            exists i :: 0 <= i < |headers| && headers[i].Loaded() && headers[i].Touches(v)
    decreases |headers|
  {
    if headers != [] {
      var n := |headers| - 1;
      WithSegmentsAt(file, headers[..n], v);
      WithPagesAt(WithSegments(map[], file, headers[..n]), file, headers[n], headers[n].EndPage(), v);
    }
  }

  lemma {:induction false} WithSegmentsKeeps(file: seq<Byte>, headers: seq<ProgHeader>, i: nat, v: nat)
    requires i < |headers| && headers[i].Loaded() && headers[i].Touches(v) && PageDisjoint(headers)
    ensures v in WithSegments(map[], file, headers)
    ensures WithSegments(map[], file, headers)[v] == Mapped(USER_WRITABLE, Data(PageBytes(file, headers[i], v)))
    decreases |headers|
  {
    var n := |headers| - 1;
    WithPagesAt(WithSegments(map[], file, headers[..n]), file, headers[n], headers[n].EndPage(), v);
    if i < n {
      WithSegmentsKeeps(file, headers[..n], i, v);
    }
  }

  /** Every address of a loaded segment reads as the file byte below `filesz`, and as zero from there to `memsz`. */
  lemma SegmentByte(file: seq<Byte>, headers: seq<ProgHeader>, i: nat, a: nat)
    requires i < |headers| && headers[i].Loaded() && PageDisjoint(headers)
    requires headers[i].vaddr <= a < headers[i].vaddr + headers[i].memsz
    requires headers[i].offset + headers[i].filesz <= |file|
    ensures var image := WithSegments(map[], file, headers);
            var ph := headers[i];
            && a / PAGE_SIZE in image && image[a / PAGE_SIZE].flags == USER_WRITABLE
            && image[a / PAGE_SIZE].content.Data? && |image[a / PAGE_SIZE].content.bytes| == PAGE_SIZE
            && image[a / PAGE_SIZE].content.bytes[a % PAGE_SIZE] ==
               if a - ph.vaddr < ph.filesz then file[ph.offset + (a - ph.vaddr)] else 0
  {
    WithSegmentsKeeps(file, headers, i, a / PAGE_SIZE);
  }

  // ----- the program header table

  /** The program header at `at`; a header past the end of the file is never asked for. */
  function HeaderAt(file: seq<Byte>, at: nat): ProgHeader {
    if at + PROG_HEADER_SIZE <= |file| then ReadProgHeader(file, at) else ProgHeader(0, 0, 0, 0, 0)
  }

  /** The `n` entries of the program header table from `at` on. */
  function Headers(file: seq<Byte>, at: nat, entrySize: nat, n: nat): (hs: seq<ProgHeader>)
    ensures |hs| == n
    decreases n
  {
    if n == 0 then [] else [HeaderAt(file, at)] + Headers(file, at + entrySize, entrySize, n - 1)
  }

  ghost predicate Readable(file: seq<Byte>, at: nat, entrySize: nat, n: nat)
    decreases n
  {
    n == 0 || (at + PROG_HEADER_SIZE <= |file| && Readable(file, at + entrySize, entrySize, n - 1))
  }

  ghost predicate AllPlaced(headers: seq<ProgHeader>) {
    forall i :: 0 <= i < |headers| && headers[i].Loaded() ==> headers[i].Placed()
  }

  ghost predicate AllAccepted(headers: seq<ProgHeader>, size: nat) {
    forall i :: 0 <= i < |headers| && headers[i].Loaded() ==> headers[i].Accepted(size)
  }

  // ----- the file header

  /** Checks of elf_load_program, on 32-bit words. */
  predicate HeaderAccepted(file: seq<Byte>)
    requires |file| >= ELF_HEADER_SIZE
  {
    && file[0] == 0x7F && file[1] == 'E' as int as Byte && file[2] == 'L' as int as Byte &&
       file[3] == 'F' as int as Byte
    && Word16(file, 16) == ET_EXEC
    && 0 < TableOffset(file) < |file|
    && (TableOffset(file) + TableEntrySize(file) * TableEntries(file)) % WORD <= |file|
  }

  function EntryPoint(file: seq<Byte>): nat
    requires |file| >= ELF_HEADER_SIZE
  {
    Word32(file, 24)
  }

  function TableOffset(file: seq<Byte>): nat
    requires |file| >= ELF_HEADER_SIZE
  {
    Word32(file, 28)
  }

  function TableEntrySize(file: seq<Byte>): nat
    requires |file| >= ELF_HEADER_SIZE
  {
    Word16(file, 42)
  }

  function TableEntries(file: seq<Byte>): nat
    requires |file| >= ELF_HEADER_SIZE
  {
    Word16(file, 44)
  }

  function ProgHeaders(file: seq<Byte>): seq<ProgHeader>
    requires |file| >= ELF_HEADER_SIZE
  {
    Headers(file, TableOffset(file), TableEntrySize(file), TableEntries(file))
  }

  /** The headers are inside the file, and segments are placed below the kernel. */
  ghost predicate TableLoadable(file: seq<Byte>, table: nat, entrySize: nat, num: nat) {
    Readable(file, table, entrySize, num) && AllPlaced(Headers(file, table, entrySize, num))
  }

  /** What the loader takes for granted. */
  ghost predicate Loadable(file: seq<Byte>) {
    && |file| >= ELF_HEADER_SIZE
    && (HeaderAccepted(file) ==> TableLoadable(file, TableOffset(file), TableEntrySize(file), TableEntries(file)))
  }

  /** Everything the loader checks. */
  ghost predicate Wellformed(file: seq<Byte>)
    requires |file| >= ELF_HEADER_SIZE
  {
    HeaderAccepted(file) && AllAccepted(ProgHeaders(file), |file|)
  }

  // ----- with the stacks

  /** The segments' pages and two stack pages, only one of which the user may touch. */
  ghost function ProgramImage(file: seq<Byte>): Image
    requires |file| >= ELF_HEADER_SIZE
  {
    WithStacks(WithSegments(map[], file, ProgHeaders(file)))
  }

  ghost function WithStacks(image: Image): Image {
    image[KERNEL_STACK_PAGE := Mapped(WRITABLE, Stale)][USER_STACK_PAGE := Mapped(USER_WRITABLE, Stale)]
  }

  /** No page is to be mapped twice: the segments share none with each other or with the stacks. */
  ghost predicate MappedOnce(headers: seq<ProgHeader>) {
    && PageDisjoint(headers)
    && forall i :: 0 <= i < |headers| && headers[i].Loaded() ==>
      !headers[i].Touches(KERNEL_STACK_PAGE) && !headers[i].Touches(USER_STACK_PAGE)
  }
}
