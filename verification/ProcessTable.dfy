/** Creating processes from other processes, with identifiers, and undoing what could not be finished. */
module ProcessTable {
  import opened Units
  import opened Alignment
  import opened BuddyPartition
  import opened AddressSpace
  import opened Bytes
  import opened ElfFile
  import opened ElfBuilder
  import opened LoadOrder
  import opened ProgramOrder
  import opened ElfLoader
  import opened FrameOwnership
  import opened FreeFrames
  import opened PageAllocator
  import opened CopySteps
  import opened Processes
  import opened ProcessIds
  import opened SlabAllocator
  import SlabPages
  import opened UserImages
  import opened UserTables

  lemma {:induction false} AllUsed(used: set<nat>, n: nat)
    requires forall p: nat :: p in used <==> p < n
    ensures |used| == n
  {
    if n > 0 {
      AllUsed(used - {n - 1}, n - 1);
    } else {
      assert used == {};
    }
  }

  /** Every process identifier is taken. */
  ghost predicate NoneFree(used: set<nat>) {
    forall pid: nat :: pid < PROC_MAX_NUM ==> pid in used
  }

  /** What comes of an attempt to create a process; `Panics` is the end of the kernel. */
  datatype Creation = Created(process: Process) | NotCreated | Panics

  class Table {
    const machine: Machine
    const pids: PidMap
    const slab: Allocator
    /** The cache of process records. */
    const procCache: nat

    constructor (machine: Machine, pids: PidMap, slab: Allocator, procCache: nat)
      requires machine.Valid() && pids.Valid() && slab.Valid() && slab.pmm == machine.pmm
      requires pids !in machine.pmm.Frame() && pids.bitmap !in machine.pmm.Frame()
      requires procCache < |slab.pages.sizes|
      requires machine !in slab.pages.Frame() && pids !in slab.pages.Frame() && pids.bitmap !in slab.pages.Frame()
      ensures Valid() && this.machine == machine && this.pids == pids && this.slab == slab
      ensures this.procCache == procCache
    {
      this.machine, this.pids, this.slab, this.procCache := machine, pids, slab, procCache;
    }

    ghost predicate Valid()
      reads machine.pmm.Frame(), pids, slab.pmm.Frame(), slab.pages.Frame()
    {
      machine.Valid() && pids.Valid() && Stocked() && Apart()
    }

    /** Keeps `Stocked` closed: what it says is in view only where a key is stated. */
    ghost predicate StockKey(k: int) {
      true
    }

    ghost predicate Stocked()
      reads slab.pmm.Frame(), slab.pages.Frame()
    {
      forall k {:trigger StockKey(k)} :: StockKey(k) ==> slab.Valid()
    }

    /** Nothing is shared but the page allocator. */
    ghost predicate Apart() {
      && slab.pmm == machine.pmm && procCache < |slab.pages.sizes| && machine.pmm.Frame() !! slab.pages.Frame()
      && pids !in machine.pmm.Frame() && pids.bitmap !in machine.pmm.Frame() && slab.pages !in machine.pmm.Frame()
      && machine !in slab.pages.Frame() && pids !in slab.pages.Frame() && pids.bitmap !in slab.pages.Frame()
    }

    // ----- process records

    /** The pages that the next record costs: one if the cache has none left. */
    ghost function RecordPages(): nat
      reads slab.pages`slabs
    {
      if slab.pages.Exhausted(procCache) then 1 else 0
    }

    /** The pages that are then left for the process itself. */
    ghost function FreeForProcess(): nat
      reads machine.pmm`part, slab.pages`slabs
    {
      var free := FreeCount(machine.pmm.total, machine.pmm.part);
      if free >= RecordPages() then free - RecordPages() else 0
    }

    /** The process has its record, of the cache of records. */
    ghost predicate HasRecord(p: Process)
      reads p`record, slab.pages`slabs
    {
      && p.record in slab.Live() && p.record / PAGE_SIZE in slab.pages.slabs && slab.Owner(p.record) == procCache
    }

    /** slab_alloc of a record; 0 stands for the panic. */
    method AllocRecord() returns (record: nat, ghost after: Moment)
      requires Valid()
      modifies machine.pmm.Frame(), slab.pages.Frame()
      ensures Valid() && machine.mem == old(machine.mem) && after == Now(machine)
      ensures record == 0 <==> old(RecordPages()) > FreeCount(machine.pmm.total, old(machine.pmm.part))
      ensures record == 0 ==> after == old(Now(machine)) && slab.pages.slabs == old(slab.pages.slabs)
      ensures record != 0 ==>
        && record !in old(slab.Live()) && slab.Live() == old(slab.Live()) + iset{record}
        && record / PAGE_SIZE in slab.pages.slabs && slab.Owner(record) == procCache
        && RecordTaken(old(machine.pmm.part), after.part, old(RecordPages()))
        && FreeCount(machine.pmm.total, after.part) == old(FreeForProcess())
    {
      ghost var page;
      ghost var part0 := machine.pmm.part;
      assert StockKey(0);
      machine.pmm.Open();
      record, page := slab.AllocObject(procCache);
      machine.pmm.Open();
      after := Now(machine);
      RecordCounted(part0, after.part, page);
      NoRunOrFree(machine.pmm.total, part0);
    }

    /** The pages, at most one, that the cache took for the record. */
    ghost predicate RecordTaken(part0: Partition, part: Partition, pages: nat) {
      if pages == 0 then part == part0 else exists page: nat :: page != 0 && Took(part0, part, multiset{page})
    }

    lemma RecordCounted(part0: Partition, part: Partition, page: nat)
      requires Tiling(machine.pmm.total, part0) && Tiling(machine.pmm.total, part)
      requires if page == 0 then part == part0 else Took(part0, part, multiset{page})
      ensures RecordTaken(part0, part, if page == 0 then 0 else 1)
      ensures FreeCount(machine.pmm.total, part0)
              == FreeCount(machine.pmm.total, part) + if page == 0 then 0 else 1
    {
      if page != 0 {
        TookCounts(machine.pmm.total, part0, part, multiset{page});
      }
    }

    lemma NoRunOrFree(total: nat, part: Partition)
      requires Tiling(total, part)
      ensures FreeRunExists(part, 0) <==> FreeCount(total, part) > 0
    {
      if FreeRunExists(part, 0) {
        var a: nat :| Aligned(a, 0) && FreeRun(part, a, 0);
        assert FreeAt(part, a);
        FreeInside(total, part, a);
        assert a in FreePages(total, part);
      } else {
        NoRunExhausted(part);
        ExhaustedCount(total, part);
      }
    }

    /** The first record of all, without a free page: the panic of alloc_slab_page. */
    lemma FirstRecordPanics()
      requires slab.pages.slabs == map[] && Exhausted(machine.pmm.part)
      ensures RecordPages() > FreeCount(machine.pmm.total, machine.pmm.part)
    {
      ExhaustedCount(machine.pmm.total, machine.pmm.part);
    }

    /** What proc_free does behind the address space: free_pid, unless there is none, and slab_free of the record. */
    method ReleaseRecord(p: Process)
      requires Valid() && HasRecord(p) && -1 <= p.pid < PROC_MAX_NUM
      modifies pids.bitmap, slab.pages.Frame()
      ensures Valid()
      ensures pids.Used() == if p.pid == -1 then old(pids.Used()) else old(pids.Used()) - {p.pid}
      ensures slab.Live() == old(slab.Live()) - iset{p.record}
    {
      var record := p.record;
      assert StockKey(0);
      if p.pid != -1 {
        pids.FreePid(p.pid);
      }
      slab.Kfree(record);
    }

    /** The pages of the caches stay theirs while others are taken. */
    twostate lemma StockKept(frames: multiset<nat>)
      requires old(Stocked()) && Apart() && machine.pmm.Valid() && unchanged(slab.pages.Frame())
      requires Took(old(machine.pmm.part), machine.pmm.part, frames)
      ensures Stocked() && forall f :: f in slab.pages.slabs ==> f !in frames
    {
      assert StockKey(0);
      assert forall f :: f in slab.pages.slabs ==> IsLive(old(machine.pmm.part), f, 0);
      assert slab.Valid();
    }

    /** And while others are returned. */
    twostate lemma StockStays(frames: multiset<nat>)
      requires old(Stocked()) && Apart() && machine.pmm.Valid() && unchanged(slab.pages.Frame())
      requires Took(machine.pmm.part, old(machine.pmm.part), frames)
      requires forall f :: f in slab.pages.slabs ==> f !in frames
      ensures Stocked()
    {
      assert StockKey(0);
      assert forall f :: f in slab.pages.slabs ==> IsLive(old(machine.pmm.part), f, 0);
      assert slab.Valid();
    }

    /** proc_alloc. Without an identifier the record is given back, but not the page that its cache may have taken. */
    method ProcAlloc() returns (out: Creation, ghost after: Moment)
      requires Valid()
      modifies machine.pmm.Frame(), slab.pages.Frame(), pids`generator, pids.bitmap
      ensures Valid() && machine.mem == old(machine.mem) && after == Now(machine)
      ensures out.Panics? <==> old(RecordPages()) > FreeCount(machine.pmm.total, old(machine.pmm.part))
      ensures out.Panics? ==> after == old(Now(machine))
      ensures out.NotCreated? ==> NoneFree(old(pids.Used())) && |old(pids.Used())| == PROC_MAX_NUM
      ensures !out.Created? ==> pids.Used() == old(pids.Used()) && slab.Live() == old(slab.Live())
      ensures !out.Panics? ==>
        && RecordTaken(old(machine.pmm.part), after.part, old(RecordPages()))
        && FreeCount(machine.pmm.total, after.part) == old(FreeForProcess())
      ensures out.Created? ==>
        && !NoneFree(old(pids.Used())) && IsNew(out.process) && fresh(out.process) && out.process.pid >= 0
        && out.process.pid !in old(pids.Used()) && pids.Used() == old(pids.Used()) + {out.process.pid}
        && out.process.record !in old(slab.Live()) && slab.Live() == old(slab.Live()) + iset{out.process.record}
    {
      var record;
      record, after := AllocRecord();
      if record == 0 {
        return Panics, after;
      }
      out := NameProcess(record, old(pids.Used()), old(slab.Live()));
    }

    /** A process without memory, with its record, and with an identifier if there was one. */
    ghost predicate IsNew(p: Process)
      reads p, slab.pages`slabs, machine`mem, machine.pmm`part
    {
      && p.pageDir == 0 && machine.Accounted(p) && HasRecord(p) && -1 <= p.pid < PROC_MAX_NUM
      && p !in slab.pages.Frame() && p !in machine.pmm.Frame() && p !in slab.pmm.Frame()
    }

    /** proc_alloc once there is a record. */
    method NameProcess(record: nat, ghost used: set<nat>, ghost live: iset<nat>) returns (out: Creation)
      requires Valid() && record / PAGE_SIZE in slab.pages.slabs && slab.Owner(record) == procCache
      requires pids.Used() == used && record !in live && slab.Live() == live + iset{record}
      modifies slab.pages.Frame(), pids`generator, pids.bitmap
      ensures Valid() && !out.Panics?
      ensures out.NotCreated? ==> NoneFree(used) && |used| == PROC_MAX_NUM && pids.Used() == used && slab.Live() == live
      ensures out.Created? ==>
        && !NoneFree(used) && IsNew(out.process) && fresh(out.process) && out.process.record == record
        && out.process.pid >= 0 && out.process.pid !in used && pids.Used() == used + {out.process.pid}
        && slab.Live() == live + iset{record}
    {
      var pid := TakePid();
      var p := ClearRecord(record, pid);
      if pid == -1 {
        ReleaseUnnamed(p, live);
        out := NotCreated;
      } else {
        out := Created(p);
      }
    }

    /** All fields of the record are zero, but for the identifier. */
    method ClearRecord(record: nat, pid: int) returns (p: Process)
      requires Valid() && record in slab.Live() && record / PAGE_SIZE in slab.pages.slabs
      requires slab.Owner(record) == procCache && -1 <= pid < PROC_MAX_NUM
      ensures fresh(p) && IsNew(p) && p.record == record && p.pid == pid && Valid()
    {
      p := new Process();
      p.record, p.pid := record, pid;
    }

    method ReleaseUnnamed(p: Process, ghost live: iset<nat>)
      requires Valid() && HasRecord(p) && p.pid == -1 && p.record !in live && slab.Live() == live + iset{p.record}
      modifies pids.bitmap, slab.pages.Frame()
      ensures Valid() && pids.Used() == old(pids.Used()) && slab.Live() == live
    {
      ReleaseRecord(p);
      assert live + iset{p.record} - iset{p.record} == live;
    }

    /** alloc_pid. */
    method TakePid() returns (pid: int)
      requires Valid()
      modifies pids`generator, pids.bitmap
      ensures Valid() && (pid == -1 <==> NoneFree(old(pids.Used())))
      ensures pid == -1 ==> pids.Used() == old(pids.Used()) && |old(pids.Used())| == PROC_MAX_NUM
      ensures pid != -1 ==>
        0 <= pid < PROC_MAX_NUM && pid !in old(pids.Used()) && pids.Used() == old(pids.Used()) + {pid}
    {
      ghost var n;
      pid, n := pids.AllocPid();
      if pid == -1 {
        AllUsed(pids.Used(), PROC_MAX_NUM);
      }
    }

    // ----- proc_clone

    /** Keeps `Cloned` closed: what it says is in view only where a key is stated. */
    ghost predicate CloneKey(k: int) {
      true
    }

    ghost predicate ClonedBody(proc: Process, clone: Process, s0: Moment)
      reads machine`mem, machine.pmm`part, proc`pageDir, proc`memPages, clone`pageDir, clone`memPages
    {
      && clone.pageDir != 0 && machine.Accounted(clone) && clone.memPages == proc.memPages
      && Took(s0.part, machine.pmm.part, Frames(machine.mem, clone.pageDir))
      && IsCopy(machine.mem, proc.pageDir, clone.pageDir) && machine.KernelShared(machine.mem, clone.pageDir)
    }

    /** The clone is a copy of the process, with as many frames, all of them taken since `s0`. */
    ghost predicate Cloned(proc: Process, clone: Process, s0: Moment)
      reads machine`mem, machine.pmm`part, proc`pageDir, proc`memPages, clone`pageDir, clone`memPages
    {
      forall k {:trigger CloneKey(k)} :: CloneKey(k) ==> ClonedBody(proc, clone, s0)
    }

    /**
     proc_clone. It panics exactly if a record takes a page and none is free. It succeeds exactly if there is an
     identifier, and as many free pages as the parent has, besides the one for the record if its cache has none
     left. Otherwise no identifier and no record is taken, and the allocator has the very blocks it had, but for
     that page, which the cache keeps. No live page has changed. If it succeeds, the child is a copy of the parent
     in frames that were all free, and has as many of them, so the page-count panic is out of reach.
     */
    method ProcClone(proc: Process) returns (out: Creation, ghost after: Moment)
      requires Valid() && proc.pageDir != 0 && machine.Accounted(proc) && proc !in slab.pages.Frame()
      modifies machine`mem, machine.pmm.Frame(), slab.pages.Frame(), pids`generator, pids.bitmap
      ensures Valid() && machine.Accounted(proc)
      ensures LiveKept(old(machine.mem), old(machine.pmm.part), machine.mem)
      ensures out.Panics? <==> old(RecordPages()) > FreeCount(machine.pmm.total, old(machine.pmm.part))
      ensures out.Created? <==>
        && !NoneFree(old(pids.Used()))
        && proc.memPages + old(RecordPages()) <= FreeCount(machine.pmm.total, old(machine.pmm.part))
      ensures out.Panics? ==> Now(machine) == old(Now(machine))
      ensures !out.Panics? ==> RecordTaken(old(machine.pmm.part), after.part, old(RecordPages()))
      ensures !out.Created? ==>
        machine.pmm.part == after.part && pids.Used() == old(pids.Used()) && slab.Live() == old(slab.Live())
      ensures out.Created? ==>
        && fresh(out.process) && Cloned(proc, out.process, after) && HasRecord(out.process) && OffSlabs(out.process)
        && Registered(out.process, old(pids.Used()), old(slab.Live())) && Inherits(out.process, proc)
    {
      out, after := ProcAlloc();
      ParentKept(proc, old(Now(machine)), after, old(RecordPages()), out.Panics?);
      if out.Created? {
        out := CloneNew(out.process, proc, old(Now(machine)), after, old(RecordPages()), old(pids.Used()),
                        old(slab.Live()));
      }
    }

    /** The clone goes on where its parent is, with the parent's stacks in its own copy of the memory. */
    ghost predicate Inherits(child: Process, proc: Process)
      reads child, proc
    {
      && child.context == proc.context && child.entry == proc.entry && child.kernelStack == proc.kernelStack
      && child.userStack == proc.userStack && child.parent == proc.record
    }

    /** The fields that proc_clone copies. */
    method Inherit(child: Process, proc: Process)
      requires child != proc
      modifies child`context, child`entry, child`kernelStack, child`userStack, child`parent
      ensures Inherits(child, proc)
    {
      child.context := proc.context;
      child.entry := proc.entry;
      child.kernelStack := proc.kernelStack;
      child.userStack := proc.userStack;
      child.parent := proc.record;
    }

    /** Keeps `Registered` closed: what it says is in view only where a key is stated. */
    ghost predicate RegisteredKey(k: int) {
      true
    }

    /** The process has one identifier and one record more than were in use. */
    ghost predicate Registered(p: Process, used: set<nat>, live: iset<nat>)
      reads p`pid, p`record, pids, pids.bitmap, slab.pages`slabs
    {
      forall k: int {:trigger RegisteredKey(k)} :: RegisteredKey(k) ==>
        && pids.Valid() && p.pid >= 0 && p.pid !in used && pids.Used() == used + {p.pid}
        && p.record !in live && slab.Live() == live + iset{p.record}
    }

    /** proc_clone once there is a process. */
    method CloneNew(child: Process, proc: Process, ghost before: Moment, ghost after: Moment, ghost pages: nat,
                    ghost used: set<nat>, ghost live: iset<nat>)
      returns (out: Creation)
      requires Valid() && child != proc && IsNew(child) && after == Now(machine) && after.mem == before.mem
      requires RecordTaken(before.part, after.part, pages)
      requires child.pid >= 0 && child.pid !in used && pids.Used() == used + {child.pid}
      requires child.record !in live && slab.Live() == live + iset{child.record}
      requires proc.pageDir != 0 && machine.Accounted(proc) && proc !in slab.pages.Frame()
      modifies machine`mem, machine.pmm.Frame(), child`memPages, child`pageDir, pids.bitmap, slab.pages.Frame()
      modifies child`context, child`entry, child`kernelStack, child`userStack, child`parent
      ensures Valid() && machine.Accounted(proc) && LiveKept(before.mem, before.part, machine.mem)
      ensures out == if proc.memPages <= FreeCount(machine.pmm.total, after.part) then Created(child) else NotCreated
      ensures out.NotCreated? ==> machine.pmm.part == after.part && pids.Used() == used && slab.Live() == live
      ensures out.Created? ==>
        && Cloned(proc, child, after) && HasRecord(child) && OffSlabs(child)
        && Registered(child, used, live) && Inherits(child, proc)
    {
      assert Held(proc);
      var ok := CloneAndInherit(child, proc, used, live);
      HeldMeans(proc);
      KeptSince(before, after, pages, machine.mem);
      out := if ok then Created(child) else NotCreated;
    }

    /** The memory of the clone, and if there is enough, the fields. */
    method CloneAndInherit(child: Process, proc: Process, ghost used: set<nat>, ghost live: iset<nat>)
      returns (ok: bool)
      requires Valid() && child != proc && IsNew(child)
      requires child.pid >= 0 && child.pid !in used && pids.Used() == used + {child.pid}
      requires child.record !in live && slab.Live() == live + iset{child.record}
      requires proc.pageDir != 0 && Held(proc) && proc !in slab.pages.Frame()
      modifies machine`mem, machine.pmm.Frame(), child`memPages, child`pageDir, pids.bitmap, slab.pages.Frame()
      modifies child`context, child`entry, child`kernelStack, child`userStack, child`parent
      ensures Valid() && Held(proc)
      ensures LiveKept(old(machine.mem), old(machine.pmm.part), machine.mem)
      ensures ok <==> proc.memPages <= FreeCount(machine.pmm.total, old(machine.pmm.part))
      ensures !ok ==> machine.pmm.part == old(machine.pmm.part) && pids.Used() == used && slab.Live() == live
      ensures ok ==>
        && Cloned(proc, child, old(Now(machine))) && HasRecord(child) && OffSlabs(child)
        && Registered(child, used, live) && Inherits(child, proc)
    {
      ok := CloneOrFree(child, proc, used, live);
      if ok {
        assert RegisteredKey(0);
        assert Settled(child, proc, used, live, old(Now(machine)));
        Finish(child, proc, used, live, old(Now(machine)));
        assert SettledKey(0);
      }
    }

    /** Keeps `Settled` closed: what it says is in view only where a key is stated. */
    ghost predicate SettledKey(k: int) {
      true
    }

    /** The clone has its memory, its identifier and its record. */
    ghost predicate Settled(child: Process, proc: Process, used: set<nat>, live: iset<nat>, s0: Moment)
      reads machine`mem, machine.pmm.Frame(), pids, pids.bitmap, slab.pmm.Frame(), slab.pages.Frame()
      reads proc`pageDir, proc`memPages, child`pageDir, child`memPages, child`pid, child`record
    {
      forall k: int {:trigger SettledKey(k)} :: SettledKey(k) ==>
        && Valid() && Held(proc) && Cloned(proc, child, s0) && HasRecord(child) && OffSlabs(child)
        && Registered(child, used, live)
    }

    method Finish(child: Process, proc: Process, ghost used: set<nat>, ghost live: iset<nat>, ghost s0: Moment)
      requires child != proc && child !in machine.pmm.Frame() && child !in slab.pages.Frame()
      requires child !in slab.pmm.Frame() && Settled(child, proc, used, live, s0)
      modifies child`context, child`entry, child`kernelStack, child`userStack, child`parent
      ensures Settled(child, proc, used, live, s0) && Inherits(child, proc)
    {
      Inherit(child, proc);
    }

    /** Keeps `Held` closed: what it says is in view only where a key is stated. */
    ghost predicate HeldKey(k: int) {
      true
    }

    /** The process is accounted for. */
    ghost predicate Held(p: Process)
      reads machine`mem, machine.pmm`part, p`pageDir, p`memPages
    {
      forall k {:trigger HeldKey(k)} :: HeldKey(k) ==> machine.Accounted(p)
    }

    lemma HeldMeans(p: Process)
      requires Held(p)
      ensures machine.Accounted(p)
    {
      assert HeldKey(0);
    }

    /** The page for a record is none of the parent's. */
    lemma ParentKept(proc: Process, before: Moment, after: Moment, pages: nat, none: bool)
      requires proc.pageDir != 0 && after == Now(machine) && after.mem == before.mem && proc !in machine.pmm.Frame()
      requires SpaceOk(before.mem, proc.pageDir) && Owned(before.part, Frames(before.mem, proc.pageDir))
      requires Resident(before.mem, proc.pageDir) && proc.memPages == |Frames(before.mem, proc.pageDir)|
      requires if none then after == before else RecordTaken(before.part, after.part, pages)
      ensures machine.Accounted(proc) && LiveKept(before.mem, before.part, after.mem)
    {
      if !none && pages != 0 {
        var page: nat :| page != 0 && Took(before.part, after.part, multiset{page});
        OwnedStays(before.part, after.part, multiset{page}, Frames(before.mem, proc.pageDir));
      }
    }

    lemma KeptSince(before: Moment, after: Moment, pages: nat, mem: Memory)
      requires after.mem == before.mem && RecordTaken(before.part, after.part, pages)
      requires LiveKept(after.mem, after.part, mem)
      ensures LiveKept(before.mem, before.part, mem)
    {
      forall f: nat | f in before.mem && IsLive(before.part, f, 0)
        ensures f in mem && mem[f] == before.mem[f]
      {
        assert IsLive(after.part, f, 0);
      }
    }

    /** init_proc_from_proc; if it fails, proc_free. */
    method CloneOrFree(child: Process, proc: Process, ghost used: set<nat>, ghost live: iset<nat>) returns (ok: bool)
      requires Valid() && child != proc && IsNew(child)
      requires child.pid >= 0 && child.pid !in used && pids.Used() == used + {child.pid}
      requires child.record !in live && slab.Live() == live + iset{child.record}
      requires proc.pageDir != 0 && Held(proc) && proc !in slab.pages.Frame()
      modifies machine`mem, machine.pmm.Frame(), child`memPages, child`pageDir, pids.bitmap, slab.pages.Frame()
      ensures Valid() && Held(proc)
      ensures LiveKept(old(machine.mem), old(machine.pmm.part), machine.mem)
      ensures ok <==> proc.memPages <= FreeCount(machine.pmm.total, old(machine.pmm.part))
      ensures !ok ==> machine.pmm.part == old(machine.pmm.part) && pids.Used() == used && slab.Live() == live
      ensures ok ==>
        && Cloned(proc, child, old(Now(machine))) && HasRecord(child) && OffSlabs(child)
        && pids.Used() == used + {child.pid} && slab.Live() == live + iset{child.record}
    {
      ok := InitBesideSlab(child, proc);
      if !ok {
        ReleaseLast(child, used, live);
      }
    }

    /** The record and the identifier taken last are given back. */
    method ReleaseLast(p: Process, ghost used: set<nat>, ghost live: iset<nat>)
      requires Valid() && HasRecord(p) && 0 <= p.pid < PROC_MAX_NUM
      requires p.pid !in used && pids.Used() == used + {p.pid}
      requires p.record !in live && slab.Live() == live + iset{p.record}
      modifies pids.bitmap, slab.pages.Frame()
      ensures Valid() && pids.Used() == used && slab.Live() == live
    {
      ReleaseRecord(p);
      assert used + {p.pid} - {p.pid} == used && live + iset{p.record} - iset{p.record} == live;
    }

    method InitBesideSlab(child: Process, proc: Process) returns (ok: bool)
      requires Valid() && child != proc && IsNew(child)
      requires proc.pageDir != 0 && Held(proc) && proc !in slab.pages.Frame()
      modifies machine`mem, machine.pmm.Frame(), child`memPages, child`pageDir
      ensures Valid() && Held(proc)
      ensures LiveKept(old(machine.mem), old(machine.pmm.part), machine.mem)
      ensures ok <==> proc.memPages <= FreeCount(machine.pmm.total, old(machine.pmm.part))
      ensures !ok ==> machine.pmm.part == old(machine.pmm.part)
      ensures ok ==> Cloned(proc, child, old(Now(machine))) && OffSlabs(child)
      ensures pids.Used() == old(pids.Used()) && unchanged(slab.pages)
    {
      ok := InitAlone(child, proc);
      if ok {
        ClonedMeans(proc, child, old(Now(machine)));
        StockKept(Frames(machine.mem, child.pageDir));
      } else {
        TookNothing(machine.pmm.part);
        StockKept(multiset{});
      }
    }

    method InitAlone(child: Process, proc: Process) returns (ok: bool)
      requires machine.Valid() && pids.Valid() && Apart() && child != proc && IsNew(child)
      requires proc.pageDir != 0 && Held(proc) && proc !in slab.pages.Frame()
      modifies machine`mem, machine.pmm.Frame(), child`memPages, child`pageDir
      ensures machine.Valid() && pids.Valid() && Held(proc)
      ensures LiveKept(old(machine.mem), old(machine.pmm.part), machine.mem)
      ensures ok <==> proc.memPages <= FreeCount(machine.pmm.total, old(machine.pmm.part))
      ensures !ok ==> machine.pmm.part == old(machine.pmm.part)
      ensures ok ==> Cloned(proc, child, old(Now(machine)))
      ensures pids.Used() == old(pids.Used()) && unchanged(slab.pages.Frame())
    {
      ok := InitOrUndo(child, proc);
    }

    lemma ClonedMeans(proc: Process, clone: Process, s0: Moment)
      requires Cloned(proc, clone, s0)
      ensures ClonedBody(proc, clone, s0)
    {
      assert CloneKey(0);
    }

    // ----- proc_exec

    /**
     proc_exec, up to the scheduler. It succeeds exactly if there is an identifier, the file is well formed and maps
     no page twice, and as many pages are free as its image takes, with its page tables and the directory, besides
     the one for the record if its cache has none left. It panics exactly if that one is not free, or the loader
     comes to a page that is mapped already. Otherwise no identifier and no record is taken, and the allocator has
     the very blocks it had, but for the page of the record. If it succeeds, the user half of the new address space
     is the program's image.
     */
    method ProcExec(file: seq<Byte>) returns (out: Creation, ghost after: Moment)
      requires Valid() && Loadable(file)
      modifies machine`mem, machine.pmm.Frame(), slab.pages.Frame(), pids`generator, pids.bitmap
      ensures out.Panics? <==>
        || old(RecordPages()) > FreeCount(machine.pmm.total, old(machine.pmm.part))
        || (!NoneFree(old(pids.Used())) && ElfEnding(old(FreeForProcess()), file) == Remapped)
      ensures out.Created? <==>
        && !NoneFree(old(pids.Used())) && Wellformed(file) && MappedOnce(ProgHeaders(file))
        && Weight(ProgramImage(file).Keys) + old(RecordPages())
           <= FreeCount(machine.pmm.total, old(machine.pmm.part))
      ensures !out.Panics? ==>
        && Valid() && LiveKept(old(machine.mem), old(machine.pmm.part), machine.mem)
        && RecordTaken(old(machine.pmm.part), after.part, old(RecordPages()))
      ensures out.NotCreated? ==>
        machine.pmm.part == after.part && pids.Used() == old(pids.Used()) && slab.Live() == old(slab.Live())
      ensures out.Created? ==>
        && fresh(out.process) && Loads(out.process, after, file) && HasRecord(out.process) && OffSlabs(out.process)
        && out.process.pid !in old(pids.Used()) && pids.Used() == old(pids.Used()) + {out.process.pid}
        && out.process.record !in old(slab.Live()) && slab.Live() == old(slab.Live()) + iset{out.process.record}
    {
      out, after := ProcAlloc();
      ExecExactly(old(FreeForProcess()), old(RecordPages()), FreeCount(machine.pmm.total, old(machine.pmm.part)), file);
      if !out.Panics? {
        KeptSince(old(Now(machine)), after, old(RecordPages()), machine.mem);
      }
      if out.Created? {
        out := ExecNew(out.process, file, old(Now(machine)), after, old(RecordPages()), old(pids.Used()),
                       old(slab.Live()));
      }
    }

    /** The user half of the address space is the program's image, in frames that were free at `s0`. */
    ghost predicate Loads(p: Process, s0: Moment, file: seq<Byte>)
      requires |file| >= ELF_HEADER_SIZE
      reads p, machine`mem, machine.pmm.Frame()
    {
      && InProgress(machine, p, s0, ProgramImage(file)) && machine.KernelShared(machine.mem, p.pageDir)
      && p.entry == EntryPoint(file) && p.kernelStack == KERNEL_STACK && p.userStack == USER_STACK
    }

    /** A process made from such a file starts at its entry point, with the bytes of its segments in memory. */
    lemma BuiltRuns(p: Process, s0: Moment, file: seq<Byte>, entry: nat, segments: seq<Segment>, i: nat, a: nat)
      requires LaidOut(file, entry, segments) && PagesApart(segments) && Loads(p, s0, file)
      requires i < |segments| && segments[i].Loaded()
      requires segments[i].vaddr <= a < segments[i].vaddr + segments[i].memsz && a < KERNEL_BASE
      ensures p.entry == entry && UserWrites(machine.mem, p.pageDir, a / PAGE_SIZE)
      ensures InMemory(machine.mem, p.pageDir, a, OrZero(segments[i].content, a - segments[i].vaddr))
    {
      BuiltReadsBack(file, entry, segments);
      BuiltMemory(machine, p, s0, file, entry, segments, i, a);
    }

    /** When the page for the record is counted apart. */
    lemma ExecExactly(left: nat, pages: nat, free: nat, file: seq<Byte>)
      requires |file| >= ELF_HEADER_SIZE && left == if free >= pages then free - pages else 0
      ensures ElfEnding(left, file) == Loaded <==>
              Wellformed(file) && MappedOnce(ProgHeaders(file)) && Weight(ProgramImage(file).Keys) + pages <= free
    {
      ElfEndingIs(left, file);
      LoadedExactly(left, file);
    }

    /** proc_exec once there is a process. */
    method ExecNew(p: Process, file: seq<Byte>, ghost before: Moment, ghost after: Moment, ghost pages: nat,
                   ghost used: set<nat>, ghost live: iset<nat>)
      returns (out: Creation)
      requires Valid() && IsNew(p) && Loadable(file) && after == Now(machine) && after.mem == before.mem
      requires RecordTaken(before.part, after.part, pages)
      requires p.pid >= 0 && p.pid !in used && pids.Used() == used + {p.pid}
      requires p.record !in live && slab.Live() == live + iset{p.record}
      modifies machine`mem, machine.pmm.Frame(), p, pids.bitmap, slab.pages.Frame()
      ensures ElfEnding(FreeCount(machine.pmm.total, after.part), file) ==
              if out.Created? then Loaded else if out.NotCreated? then Refused else Remapped
      ensures !out.Panics? ==> Valid() && LiveKept(before.mem, before.part, machine.mem)
      ensures out.NotCreated? ==>
        machine.pmm.part == after.part && pids.Used() == used && slab.Live() == live
      ensures out.Created? ==>
        && out.process == p && Loads(p, after, file) && HasRecord(p) && OffSlabs(p) && p.pid == old(p.pid) &&
           p.record == old(p.record)
        && pids.Used() == old(pids.Used()) && slab.Live() == old(slab.Live())
    {
      var ending := LoadBesideSlab(p, file);
      if ending == Remapped {
        return Panics;
      }
      KeptSince(before, after, pages, machine.mem);
      if ending == Refused {
        ReleaseLast(p, used, live);
        return NotCreated;
      }
      out := Created(p);
    }

    method LoadBesideSlab(p: Process, file: seq<Byte>) returns (out: Loading)
      requires Valid() && IsNew(p) && Loadable(file)
      modifies machine`mem, machine.pmm.Frame(), p`memPages, p`pageDir, p`entry, p`kernelStack, p`userStack
      ensures out == ElfEnding(FreeCount(machine.pmm.total, old(machine.pmm.part)), file)
      ensures out != Remapped ==> Valid() && LiveKept(old(machine.mem), old(machine.pmm.part), machine.mem)
      ensures out == Refused ==> machine.pmm.part == old(machine.pmm.part)
      ensures out == Loaded ==> Loads(p, old(Now(machine)), file) && OffSlabs(p)
      ensures pids.Used() == old(pids.Used()) && unchanged(slab.pages)
    {
      ghost var s0 := Now(machine);
      out := LoadAlone(p, file);
      if out == Loaded {
        ProgressMeans(p, s0, ProgramImage(file));
        StockKept(Frames(machine.mem, p.pageDir));
      } else if out == Refused {
        TookNothing(machine.pmm.part);
        StockKept(multiset{});
      }
    }

    method LoadAlone(p: Process, file: seq<Byte>) returns (out: Loading)
      requires machine.Valid() && pids.Valid() && Apart() && IsNew(p) && Loadable(file)
      modifies machine`mem, machine.pmm.Frame(), p`memPages, p`pageDir, p`entry, p`kernelStack, p`userStack
      ensures out == ElfEnding(FreeCount(machine.pmm.total, old(machine.pmm.part)), file)
      ensures out != Remapped ==>
        && machine.Valid() && pids.Valid() && LiveKept(old(machine.mem), old(machine.pmm.part), machine.mem)
      ensures out == Refused ==> machine.pmm.part == old(machine.pmm.part)
      ensures out == Loaded ==> Loads(p, old(Now(machine)), file)
      ensures pids.Used() == old(pids.Used()) && unchanged(slab.pages.Frame())
    {
      ghost var s0 := Now(machine);
      out := ExecOrUndo(p, file);
      if out == Loaded {
        ProgressMeans(p, s0, ProgramImage(file));
      }
    }

    /** init_proc_from_elf, and proc_free of the address space if it is refused. */
    method ExecOrUndo(p: Process, file: seq<Byte>) returns (out: Loading)
      requires machine.Valid() && p.pageDir == 0 && machine.Accounted(p) && Loadable(file)
      modifies machine`mem, machine.pmm.Frame(), p`memPages, p`pageDir, p`entry, p`kernelStack, p`userStack
      ensures out == ElfEnding(FreeCount(machine.pmm.total, old(machine.pmm.part)), file)
      ensures out == Refused ==>
        && machine.Valid() && machine.pmm.part == old(machine.pmm.part)
        && LiveKept(old(machine.mem), old(machine.pmm.part), machine.mem)
      ensures out == Loaded ==> machine.Valid() && Loads(p, old(Now(machine)), file)
    {
      ghost var s0, image := Now(machine), map[];
      machine.pmm.Open();
      out, image := InitFromElf(machine, p, file);
      if out != Remapped && p.pageDir != 0 {
        ProgressMeans(p, s0, image);
      }
      if out == Refused {
        Undo(p, s0.mem, s0.part);
      }
    }

    lemma ProgressMeans(p: Process, s0: Moment, image: Image)
      requires InProgress(machine, p, s0, image)
      ensures machine.Valid() && machine.Accounted(p) && LiveKept(s0.mem, s0.part, machine.mem)
      ensures Took(s0.part, machine.pmm.part, Frames(machine.mem, p.pageDir))
    {
      Opened(machine, p, s0, image);
      BuildingMeans(s0, Now(machine), p.pageDir, image);
    }

    // ----- proc_free

    /** None of the process's frames is a page of a cache. */
    ghost predicate OffSlabs(p: Process)
      reads p`pageDir, machine`mem, slab.pages`slabs
    {
      p.pageDir != 0 ==> forall f :: f in slab.pages.slabs ==> f !in Frames(machine.mem, p.pageDir)
    }

    /**
     proc_free. Each frame of the address space, the identifier and the record are given back once, and nothing
     else is; every other frame keeps its contents.
     */
    method ProcFree(p: Process)
      requires Valid() && machine.Accounted(p) && HasRecord(p) && OffSlabs(p) && -1 <= p.pid < PROC_MAX_NUM
      requires p !in slab.pages.Frame()
      modifies machine`mem, machine.pmm.Frame(), p`memPages, pids.bitmap, slab.pages.Frame()
      ensures Valid() && p.memPages == 0
      ensures old(p.pageDir) == 0 ==> Now(machine) == old(Now(machine))
      ensures old(p.pageDir) != 0 ==> Took(machine.pmm.part, old(machine.pmm.part), old(Frames(machine.mem, p.pageDir)))
      ensures forall f :: f in old(machine.mem) && (old(p.pageDir) == 0 ||
                                                    f !in old(Frames(machine.mem, p.pageDir))) ==>
        f in machine.mem && machine.mem[f] == old(machine.mem)[f]
      ensures pids.Used() == if p.pid == -1 then old(pids.Used()) else old(pids.Used()) - {p.pid}
      ensures slab.Live() == old(slab.Live()) - iset{p.record}
    {
      FreeBesideSlab(p);
      ReleaseRecord(p);
    }

    method FreeBesideSlab(p: Process)
      requires Valid() && machine.Accounted(p) && OffSlabs(p) && p !in slab.pages.Frame()
      modifies machine`mem, machine.pmm.Frame(), p`memPages
      ensures Valid() && p.memPages == 0
      ensures old(p.pageDir) == 0 ==> Now(machine) == old(Now(machine))
      ensures old(p.pageDir) != 0 ==> Took(machine.pmm.part, old(machine.pmm.part), old(Frames(machine.mem, p.pageDir)))
      ensures forall f :: f in old(machine.mem) && (old(p.pageDir) == 0 ||
                                                    f !in old(Frames(machine.mem, p.pageDir))) ==>
        f in machine.mem && machine.mem[f] == old(machine.mem)[f]
      ensures pids.Used() == old(pids.Used()) && unchanged(slab.pages)
    {
      ghost var dir := p.pageDir;
      ghost var frames := if dir == 0 then multiset{} else Frames(machine.mem, dir);
      machine.ProcFree(p);
      TookNothing(machine.pmm.part);
      StockStays(frames);
    }

    // ----- the address space

    /** init_proc_from_proc, and proc_free after it fails. */
    method InitOrUndo(child: Process, proc: Process) returns (ok: bool)
      requires machine.Valid() && child != proc && child.pageDir == 0 && machine.Accounted(child)
      requires proc.pageDir != 0 && Held(proc)
      modifies machine`mem, machine.pmm.Frame(), child`memPages, child`pageDir
      ensures machine.Valid() && Held(proc)
      ensures LiveKept(old(machine.mem), old(machine.pmm.part), machine.mem)
      ensures ok <==> proc.memPages <= FreeCount(machine.pmm.total, old(machine.pmm.part))
      ensures !ok ==> machine.pmm.part == old(machine.pmm.part)
      ensures child !in machine.pmm.Frame()
      ensures ok ==> Cloned(proc, child, old(Now(machine)))
    {
      ghost var s0 := Now(machine);
      assert HeldKey(0);
      ok := InitOrUndoBody(child, proc.pageDir);
      OwnersKept(s0.mem, machine.mem, s0.part, machine.pmm.part, proc.pageDir);
      if ok {
        CopiedSize(machine.mem, proc.pageDir, child.pageDir);
        assert ClonedBody(proc, child, s0);
      }
    }

    /** An address space whose frames stay live and unwritten is what it was. */
    lemma OwnersKept(mem0: Memory, mem: Memory, part0: Partition, part: Partition, dir: nat)
      requires SpaceOk(mem0, dir) && Owned(part0, Frames(mem0, dir)) && Resident(mem0, dir) &&
               LiveKept(mem0, part0, mem)
      requires part == part0 || exists taken :: Took(part0, part, taken)
      ensures SpaceOk(mem, dir) && Frames(mem, dir) == Frames(mem0, dir)
      ensures Owned(part, Frames(mem, dir)) && Resident(mem, dir)
    {
      SpaceAgree(mem0, mem, dir);
      if part != part0 {
        var taken :| Took(part0, part, taken);
        OwnedStays(part0, part, taken, Frames(mem0, dir));
      }
    }

    method InitOrUndoBody(child: Process, dir: nat) returns (ok: bool)
      requires machine.Valid() && child.pageDir == 0 && machine.Accounted(child) && machine.OwnsSpace(dir)
      modifies machine`mem, machine.pmm.Frame(), child`memPages, child`pageDir
      ensures machine.Valid()
      ensures LiveKept(old(machine.mem), old(machine.pmm.part), machine.mem)
      ensures !ok ==> machine.pmm.part == old(machine.pmm.part)
      ensures ok <==> |old(Frames(machine.mem, dir))| <= FreeCount(machine.pmm.total, old(machine.pmm.part))
      ensures ok ==>
        && child.pageDir != 0 && machine.Accounted(child)
        && Took(old(machine.pmm.part), machine.pmm.part, Frames(machine.mem, child.pageDir))
        && IsCopy(machine.mem, dir, child.pageDir) && machine.KernelShared(machine.mem, child.pageDir)
    {
      ghost var mem0, part0 := machine.mem, machine.pmm.part;
      machine.pmm.Open();
      ok := machine.InitFromProc(child, dir);
      machine.pmm.Open();
      if child.pageDir != 0 {
        TakenKept(mem0, machine.mem, part0, machine.pmm.part, child.pageDir);
        TookCounts(machine.pmm.total, part0, machine.pmm.part, Frames(machine.mem, child.pageDir));
      }
      if ok {
        SameSize(mem0, machine.mem, part0, machine.pmm.part, dir, child.pageDir);
      } else {
        ExhaustedCount(machine.pmm.total, machine.pmm.part);
        Undo(child, mem0, part0);
      }
    }

    /** The copy has as many frames as the original had. */
    lemma SameSize(mem0: Memory, mem: Memory, part0: Partition, part: Partition, dir: nat, copy: nat)
      requires SpaceOk(mem0, dir) && Owned(part0, Frames(mem0, dir)) && Resident(mem0, dir) &&
               LiveKept(mem0, part0, mem)
      requires Took(part0, part, Frames(mem, copy)) && IsCopy(mem, dir, copy)
      ensures |Frames(mem, copy)| == |Frames(mem0, dir)|
    {
      OwnersKept(mem0, mem, part0, part, dir);
      CopiedSize(mem, dir, copy);
    }

    /** proc_free of a process everything of which was taken since `part0`. */
    method Undo(child: Process, ghost mem0: Memory, ghost part0: Partition)
      requires machine.Valid() && machine.Accounted(child) && Good(machine.pmm.total, part0)
      requires child.pageDir == 0 ==> machine.pmm.part == part0
      requires child.pageDir != 0 ==> Took(part0, machine.pmm.part, Frames(machine.mem, child.pageDir))
      requires LiveKept(mem0, part0, machine.mem)
      modifies machine`mem, machine.pmm.Frame(), child`memPages
      ensures machine.Valid() && machine.pmm.part == part0 && LiveKept(mem0, part0, machine.mem)
    {
      ghost var mem1, part1, dir := machine.mem, machine.pmm.part, child.pageDir;
      machine.ProcFree(child);
      machine.pmm.Open();
      if dir != 0 {
        TookAndReturned(machine.pmm.total, part0, part1, machine.pmm.part, Frames(mem1, dir));
        NotTaken(part0, part1, Frames(mem1, dir));
      }
    }

    lemma NotTaken(part0: Partition, part: Partition, frames: multiset<nat>)
      requires Took(part0, part, frames)
      ensures forall f: nat :: IsLive(part0, f, 0) ==> f !in frames
    {
    }

    lemma TakenKept(mem0: Memory, mem: Memory, part0: Partition, part: Partition, dir: nat)
      requires IsTable(mem, dir) && Took(part0, part, Frames(mem, dir)) && KeptFor(mem0, mem, dir, Frames(mem, dir))
      ensures LiveKept(mem0, part0, mem)
    {
      assert dir in Frames(mem, dir);
      NotTaken(part0, part, Frames(mem, dir));
    }
  }
}
