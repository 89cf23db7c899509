/** What the loader does for a file, segment by segment, and when it ends in the panic of vmm_map. */
module ProgramOrder {
  import opened Units
  import opened Bytes
  import opened AddressSpace
  import opened UserImages
  import opened UserTables
  import opened ElfFile
  import opened LoadOrder

  /** The pages from `a` on, before `b`. */
  function PagesFrom(a: nat, b: nat): (attempts: seq<Attempt>)
    decreases b - a
  {
    if a >= b then [] else [Try(a)] + PagesFrom(a + 1, b)
  }

  /** load_from_prog_header. */
  function SegmentAttempts(ph: ProgHeader, size: nat): seq<Attempt> {
    if !ph.Loaded() then []
    else if !ph.Accepted(size) then [Reject]
    else PagesFrom(ph.FirstPage(), ph.EndPage())
  }

  /** load_from_pht. */
  function TableAttempts(headers: seq<ProgHeader>, size: nat): seq<Attempt> {
    if headers == [] then [] else SegmentAttempts(headers[0], size) + TableAttempts(headers[1..], size)
  }

  function StackAttempts(): seq<Attempt> {
    [Try(KERNEL_STACK_PAGE), Try(USER_STACK_PAGE)]
  }

  /** How init_proc_from_elf ends that begins with `free` pages free. */
  ghost function ElfOutcome(free: nat, file: seq<Byte>): Loading
    requires |file| >= ELF_HEADER_SIZE
  {
    if free == 0 || !HeaderAccepted(file) then Refused
    else Outcome(free, {}, TableAttempts(ProgHeaders(file), |file|) + StackAttempts())
  }

  /** Keeps `ElfEnding` closed: what it says is in view only where a key is stated. */
  ghost predicate ElfKey(k: int) {
    true
  }

  ghost predicate IsElfEnding(out: Loading, free: nat, file: seq<Byte>)
    requires |file| >= ELF_HEADER_SIZE
  {
    forall k {:trigger ElfKey(k)} :: ElfKey(k) ==> out == ElfOutcome(free, file)
  }

  /** The same, for use where it is only passed on. */
  ghost function ElfEnding(free: nat, file: seq<Byte>): Loading
    requires |file| >= ELF_HEADER_SIZE
  {
    assert IsElfEnding(ElfOutcome(free, file), free, file);
    var out :| IsElfEnding(out, free, file);
    out
  }

  lemma ElfEndingIs(free: nat, file: seq<Byte>)
    requires |file| >= ELF_HEADER_SIZE
    ensures ElfEnding(free, file) == ElfOutcome(free, file)
  {
    assert ElfKey(0);
  }

  // ----- which pages, and how often

  lemma {:induction false} PagesFromAre(a: nat, b: nat)
    ensures forall v: nat :: Try(v) in PagesFrom(a, b) <==> a <= v < b
    ensures NoReject(PagesFrom(a, b)) && Once(PagesFrom(a, b))
    decreases b - a
  {
    if a < b {
      PagesFromAre(a + 1, b);
      OnceNext(Try(a), PagesFrom(a + 1, b));
    }
  }

  lemma {:induction false} TableRejects(headers: seq<ProgHeader>, size: nat)
    ensures NoReject(TableAttempts(headers, size)) <==> AllAccepted(headers, size)
  {
    if headers != [] {
      var ph, rest := headers[0], headers[1..];
      TableRejects(rest, size);
      PagesFromAre(ph.FirstPage(), ph.EndPage());
      assert Reject in SegmentAttempts(ph, size) <==> ph.Loaded() && !ph.Accepted(size);
      assert headers == [ph] + rest;
    }
  }

  ghost predicate InSegments(headers: seq<ProgHeader>, v: nat) {
    exists i :: 0 <= i < |headers| && headers[i].Loaded() && headers[i].Touches(v)
  }

  lemma {:induction false} TablePages(headers: seq<ProgHeader>, size: nat, v: nat)
    requires AllAccepted(headers, size)
    ensures Try(v) in TableAttempts(headers, size) <==> InSegments(headers, v)
  {
    if headers != [] {
      var ph, rest := headers[0], headers[1..];
      TablePages(rest, size, v);
      PagesFromAre(ph.FirstPage(), ph.EndPage());
      assert forall i :: 0 <= i < |rest| ==> rest[i] == headers[i + 1];
      if i :| 0 <= i < |rest| && rest[i].Loaded() && rest[i].Touches(v) {
        assert headers[i + 1].Loaded() && headers[i + 1].Touches(v);
      }
      if i :| 0 <= i < |headers| && headers[i].Loaded() && headers[i].Touches(v) {
        assert i > 0 ==> rest[i - 1].Loaded() && rest[i - 1].Touches(v);
      }
    }
  }

  lemma OnceThen(a: seq<Attempt>, b: seq<Attempt>)
    ensures Once(a + b) <==> Once(a) && Once(b) && forall v: nat :: !(Try(v) in a && Try(v) in b)
  {
    if Once(a + b) {
      OnceParts(a, b);
    }
  }

  lemma OnceParts(a: seq<Attempt>, b: seq<Attempt>)
    requires Once(a + b)
    ensures Once(a) && Once(b) && forall v: nat :: !(Try(v) in a && Try(v) in b)
  {
    var all := a + b;
    forall i, j | 0 <= i < j < |a| && a[i].Try?
      ensures a[i] != a[j]
    {
      assert all[i] != all[j];
    }
    forall i, j | 0 <= i < j < |b| && b[i].Try?
      ensures b[i] != b[j]
    {
      assert all[|a| + i] != all[|a| + j];
    }
    forall v: nat | Try(v) in a
      ensures Try(v) !in b
    {
      var i :| 0 <= i < |a| && a[i] == Try(v);
      forall j | 0 <= j < |b|
        ensures b[j] != Try(v)
      {
        assert all[i] != all[|a| + j];
      }
    }
  }

  /** The first segment shares no page with those behind it. */
  ghost predicate FirstApart(ph: ProgHeader, rest: seq<ProgHeader>) {
    forall j, v: nat :: 0 <= j < |rest| && ph.Loaded() && rest[j].Loaded() ==> !(ph.Touches(v) && rest[j].Touches(v))
  }

  lemma DisjointNext(ph: ProgHeader, rest: seq<ProgHeader>)
    ensures PageDisjoint([ph] + rest) <==> PageDisjoint(rest) && FirstApart(ph, rest)
  {
    var all := [ph] + rest;
    assert forall j :: 0 <= j < |rest| ==> all[j + 1] == rest[j];
    if PageDisjoint(all) {
      forall i, j, v: nat | 0 <= i < j < |rest| && rest[i].Loaded() && rest[j].Loaded()
        ensures !(rest[i].Touches(v) && rest[j].Touches(v))
      {
        assert !(all[i + 1].Touches(v) && all[j + 1].Touches(v));
      }
      forall j, v: nat | 0 <= j < |rest| && ph.Loaded() && rest[j].Loaded()
        ensures !(ph.Touches(v) && rest[j].Touches(v))
      {
        assert !(all[0].Touches(v) && all[j + 1].Touches(v));
      }
    }
  }

  /** No page of the table comes twice exactly if the segments share none. */
  lemma {:induction false} TableOnce(headers: seq<ProgHeader>, size: nat)
    requires AllAccepted(headers, size)
    ensures Once(TableAttempts(headers, size)) <==> PageDisjoint(headers)
  {
    if headers != [] {
      var ph, rest := headers[0], headers[1..];
      assert headers == [ph] + rest;
      assert forall i :: 0 <= i < |rest| ==> rest[i] == headers[i + 1];
      TableOnce(rest, size);
      DisjointNext(ph, rest);
      PagesFromAre(ph.FirstPage(), ph.EndPage());
      var a, b := SegmentAttempts(ph, size), TableAttempts(rest, size);
      OnceThen(a, b);
      FirstOnce(ph, rest, size);
    }
  }

  lemma FirstOnce(ph: ProgHeader, rest: seq<ProgHeader>, size: nat)
    requires AllAccepted(rest, size) && (ph.Loaded() ==> ph.Accepted(size))
    ensures (forall v: nat :: !(Try(v) in SegmentAttempts(ph, size) && Try(v) in TableAttempts(rest, size))) <==>
            FirstApart(ph, rest)
  {
    var a, b := SegmentAttempts(ph, size), TableAttempts(rest, size);
    forall v: nat
      ensures Try(v) in a <==> ph.Loaded() && ph.Touches(v)
      ensures Try(v) in b <==> InSegments(rest, v)
    {
      PagesFromAre(ph.FirstPage(), ph.EndPage());
      TablePages(rest, size, v);
    }
    if FirstApart(ph, rest) {
      forall v: nat | Try(v) in a
        ensures Try(v) !in b
      {
      }
    } else {
      var j, v: nat :| 0 <= j < |rest| && ph.Loaded() && rest[j].Loaded() && ph.Touches(v) && rest[j].Touches(v);
      assert InSegments(rest, v);
      assert Try(v) in a && Try(v) in b;
    }
  }

  // ----- how loading a file ends

  lemma StackPages(v: nat)
    ensures Try(v) in StackAttempts() <==> v == KERNEL_STACK_PAGE || v == USER_STACK_PAGE
    ensures Once(StackAttempts()) && NoReject(StackAttempts())
  {
  }

  lemma ProgramPage(file: seq<Byte>, v: nat)
    requires |file| >= ELF_HEADER_SIZE && Wellformed(file)
    ensures Try(v) in TableAttempts(ProgHeaders(file), |file|) + StackAttempts() <==> v in ProgramImage(file)
  {
    TablePages(ProgHeaders(file), |file|, v);
    WithSegmentsAt(file, ProgHeaders(file), v);
    StackPages(v);
  }

  lemma ProgramPages(file: seq<Byte>)
    requires |file| >= ELF_HEADER_SIZE && Wellformed(file)
    ensures PagesOf(TableAttempts(ProgHeaders(file), |file|) + StackAttempts()) == ProgramImage(file).Keys
  {
    forall v: nat
      ensures v in PagesOf(TableAttempts(ProgHeaders(file), |file|) + StackAttempts()) <==> v in ProgramImage(file)
    {
      ProgramPage(file, v);
    }
  }

  ghost predicate OffStacks(headers: seq<ProgHeader>) {
    !InSegments(headers, KERNEL_STACK_PAGE) && !InSegments(headers, USER_STACK_PAGE)
  }

  lemma MappedOnceMeans(headers: seq<ProgHeader>)
    ensures MappedOnce(headers) <==> PageDisjoint(headers) && OffStacks(headers)
  {
  }

  lemma StacksOnce(table: seq<Attempt>)
    ensures (forall v: nat :: !(Try(v) in table && Try(v) in StackAttempts())) <==>
            Try(KERNEL_STACK_PAGE) !in table && Try(USER_STACK_PAGE) !in table
  {
    StackPages(KERNEL_STACK_PAGE);
    StackPages(USER_STACK_PAGE);
    forall v: nat
      ensures Try(v) in StackAttempts() <==> v == KERNEL_STACK_PAGE || v == USER_STACK_PAGE
    {
      StackPages(v);
    }
  }

  lemma ProgramOnce(file: seq<Byte>)
    requires |file| >= ELF_HEADER_SIZE && Wellformed(file)
    ensures Once(TableAttempts(ProgHeaders(file), |file|) + StackAttempts()) <==> MappedOnce(ProgHeaders(file))
    ensures NoReject(TableAttempts(ProgHeaders(file), |file|) + StackAttempts())
  {
    var headers := ProgHeaders(file);
    var table := TableAttempts(headers, |file|);
    TableOnce(headers, |file|);
    TableRejects(headers, |file|);
    OnceThen(table, StackAttempts());
    StackPages(0);
    StacksOnce(table);
    TablePages(headers, |file|, KERNEL_STACK_PAGE);
    TablePages(headers, |file|, USER_STACK_PAGE);
    MappedOnceMeans(headers);
  }

  /** A program is loaded exactly if it is well formed, no page is to be mapped twice, and memory suffices. */
  lemma LoadedExactly(free: nat, file: seq<Byte>)
    requires |file| >= ELF_HEADER_SIZE
    ensures ElfOutcome(free, file) == Loaded <==>
            Wellformed(file) && MappedOnce(ProgHeaders(file)) && free >= Weight(ProgramImage(file).Keys)
  {
    var attempts := TableAttempts(ProgHeaders(file), |file|) + StackAttempts();
    WeightOfNothing();
    if free > 0 && HeaderAccepted(file) {
      LoadsExactly(free, attempts);
      TableRejects(ProgHeaders(file), |file|);
      assert NoReject(attempts) <==> NoReject(TableAttempts(ProgHeaders(file), |file|));
      if Wellformed(file) {
        ProgramPages(file);
        ProgramOnce(file);
      }
    }
  }

  /** With enough memory, loading a well-formed program panics exactly if a page is to be mapped twice. */
  lemma PanicsIfShared(free: nat, file: seq<Byte>)
    requires |file| >= ELF_HEADER_SIZE && Wellformed(file) && free > Weight(ProgramImage(file).Keys)
    ensures ElfOutcome(free, file) == Remapped <==> !MappedOnce(ProgHeaders(file))
  {
    ProgramPages(file);
    ProgramOnce(file);
    RemapsIfTwice(free, TableAttempts(ProgHeaders(file), |file|) + StackAttempts());
  }

  lemma WeightOfNothing()
    ensures Weight({}) == 1
  {
    assert TablesFor({}) == {};
  }

  /** A header of kind PT_PHDR inside the one page of a segment, as linkers place it, with four pages free. */
  lemma ProgHeaderInSegment()
    ensures var text := ProgHeader(PT_LOAD, 0, 0x0804_8000, 4096, 4096);
            var phdr := ProgHeader(PT_PHDR, 52, 0x0804_8034, 64, 64);
            && text.Placed() && phdr.Placed() && text.Accepted(4096) && phdr.Accepted(4096)
            && !PageDisjoint([text, phdr]) && Outcome(4, {}, TableAttempts([text, phdr], 4096)) == Remapped
  {
    var text := ProgHeader(PT_LOAD, 0, 0x0804_8000, 4096, 4096);
    var phdr := ProgHeader(PT_PHDR, 52, 0x0804_8034, 64, 64);
    var v := text.FirstPage();
    assert [text, phdr][0].Touches(v) && [text, phdr][1].Touches(v);
    TwicePaged(text, phdr, v);
    WeightOfNothing();
    MoreWeight({}, v);
    assert {} + {v} == {v};
  }

  lemma TwicePaged(text: ProgHeader, phdr: ProgHeader, v: nat)
    requires text.Loaded() && text.Accepted(4096) && text.FirstPage() == v && text.EndPage() == v + 1
    requires phdr.Loaded() && phdr.Accepted(4096) && phdr.FirstPage() == v && phdr.EndPage() == v + 1
    ensures TableAttempts([text, phdr], 4096) == [Try(v), Try(v)]
  {
    assert PagesFrom(v + 1, v + 1) == [];
    assert PagesFrom(v, v + 1) == [Try(v)];
    assert TableAttempts([], 4096) == [];
    assert [text, phdr][1..] == [phdr] && [phdr][1..] == [];
    assert TableAttempts([phdr], 4096) == [Try(v)];
  }
}
