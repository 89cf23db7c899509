/**
 When the block cache is a faithful copy of the device: one buffer a block, and each process has the block
 it asked for.
 */
module BlockCacheBlocks {
  import opened Units
  import opened Bytes
  import opened IntrusiveList
  import opened BlockCache
  import opened BlockCacheMoves
  import opened BlockCacheRuns

  ghost predicate Unique(s: Cache) {
    forall b, c :: 0 <= b < |s.bios| && 0 <= c < |s.bios| && s.bios[b].block == s.bios[c].block ==> b == c
  }

  /** A process that holds or waits for a buffer wants the block that is in it. */
  predicate AimsAt(q: Process, b: nat, block: Block) {
    Uses(q, b) ==> q.phase.want.Target() == block
  }

  ghost predicate Aimed(s: Cache) {
    forall p, b :: 0 <= p < |s.processes| && 0 <= b < |s.bios| ==> AimsAt(s.processes[p], b, s.bios[b].block)
  }

  /** The iterator of a buffer that is held stands at the sector asked for. */
  ghost predicate AtSector(s: Cache) {
    forall p, b :: 0 <= p < |s.processes| && 0 <= b < |s.bios| && Holder(s.processes[p], b) ==>
      s.bios[b].iter == (s.processes[p].phase.want.sector - s.bios[b].block.base) % 256
  }

  ghost predicate Exact(s: Cache) {
    Unique(s) && Aimed(s)
  }

  ghost predicate Cached(s: Cache, block: Block) {
    exists b :: 0 <= b < |s.bios| && s.bios[b].block == block
  }

  /** Somebody waits for this buffer, asleep or about to look again. */
  ghost predicate Awaited(s: Cache, b: nat) {
    exists p :: 0 <= p < |s.processes| && Uses(s.processes[p], b)
  }

  /**
   What a caller of alloc_bio would have to make sure of: no buffer is for the block yet, except for the
   one that is about to be used again, and nobody waits for that one if it was for another block.
   */
  ghost predicate CarefulAlloc(s: Cache, want: Want, room: bool) {
    if CanGrow(s, room) then !Cached(s, want.Target())
    else
      var b := FindUnused(s.bios, s.recent);
      0 <= b < |s.bios| && s.bios[b].block != want.Target() ==> !Cached(s, want.Target()) && !Awaited(s, b)
  }

  ghost predicate Careful(s: Cache, e: Event) {
    match e
    case Getting(_, want, room) => Find(s.bios, s.recent, want.Target()) == -1 ==> CarefulAlloc(s, want, room)
    case Resuming(p, room) => p < |s.processes| && s.processes[p].phase.WaitsAny? ==>
      CarefulAlloc(s, s.processes[p].phase.want, room)
    case _ => true
  }

  // ----- each move

  /** The blocks stay, and whoever changes its phase aims right. */
  lemma ExactKept(s: Cache, s': Cache, p: nat, q: nat)
    requires Exact(s) && OthersSame(s, s', p, q) && |s'.bios| == |s.bios| && p < |s.processes| && q < |s.processes|
    requires forall b :: 0 <= b < |s.bios| ==> s'.bios[b].block == s.bios[b].block
    requires forall b :: 0 <= b < |s.bios| ==>
      AimsAt(s'.processes[p], b, s.bios[b].block) && AimsAt(s'.processes[q], b, s.bios[b].block)
    ensures Exact(s')
  {
    forall r, b | 0 <= r < |s'.processes| && 0 <= b < |s'.bios|
      ensures AimsAt(s'.processes[r], b, s'.bios[b].block)
    {
      assert AimsAt(s.processes[r], b, s.bios[b].block);
    }
  }

  lemma TakeOrSleepExact(s: Cache, p: nat, b: nat, want: Want)
    requires Exact(s) && p < |s.processes| && b < |s.bios| && s.bios[b].block == want.Target()
    ensures Exact(TakeOrSleep(s, p, b, want))
  {
    ExactKept(s, TakeOrSleep(s, p, b, want), p, p);
  }

  lemma TakeAnyExact(s: Cache, disk: Disk, p: nat, want: Want, room: bool)
    requires Sound(s, disk) && FreeOfAll(s, p) && Exact(s)
    ensures Exact(TakeAny(s, p, want, room)) <==> CarefulAlloc(s, want, room)
  {
    FindUnusedMeans(s.bios, s.recent);
    var b := FindUnused(s.bios, s.recent);
    if CanGrow(s, room) {
      GrowExact(s, p, want);
    } else if b == -1 {
      ExactKept(s, SleepAny(s, p, want), p, p);
    } else if s.bios[b].block == want.Target() {
      ExactKept(s, Take(Reused(s, b, want.Target()), p, b, want), p, p);
    } else {
      ReuseUnique(s, p, b, want);
      ReuseAimed(s, p, b, want);
    }
  }

  lemma GrowExact(s: Cache, p: nat, want: Want)
    requires PhasesOk(s) && Exact(s) && p < |s.processes|
    ensures Exact(Take(Grown(s, want.Target()), p, |s.bios|, want)) <==> !Cached(s, want.Target())
  {
    var n := |s.bios|;
    var s' := Take(Grown(s, want.Target()), p, n, want);
    if Cached(s, want.Target()) {
      var b :| 0 <= b < n && s.bios[b].block == want.Target();
      assert s'.bios[b].block == s'.bios[n].block;
    }
    forall r, b | 0 <= r < |s'.processes| && 0 <= b < |s'.bios|
      ensures AimsAt(s'.processes[r], b, s'.bios[b].block)
    {
      assert b < n ==> AimsAt(s.processes[r], b, s.bios[b].block);
    }
  }

  lemma ReuseUnique(s: Cache, p: nat, b: nat, want: Want)
    requires Exact(s) && p < |s.processes| && b < |s.bios| && s.bios[b].block != want.Target()
    ensures Unique(Take(Reused(s, b, want.Target()), p, b, want)) <==> !Cached(s, want.Target())
  {
    var s' := Take(Reused(s, b, want.Target()), p, b, want);
    assert s'.bios[b].block == want.Target();
    if Cached(s, want.Target()) {
      var c :| 0 <= c < |s.bios| && s.bios[c].block == want.Target();
      assert s'.bios[c].block == s'.bios[b].block;
    }
  }

  lemma ReuseAimed(s: Cache, p: nat, b: nat, want: Want)
    requires PhasesOk(s) && Exact(s) && FreeOfAll(s, p) && b < |s.bios| && s.bios[b].block != want.Target()
    ensures Aimed(Take(Reused(s, b, want.Target()), p, b, want)) <==> !Awaited(s, b)
  {
    var s' := Take(Reused(s, b, want.Target()), p, b, want);
    if Awaited(s, b) {
      var q :| 0 <= q < |s.processes| && Uses(s.processes[q], b);
      assert AimsAt(s.processes[q], b, s.bios[b].block);
      assert !AimsAt(s'.processes[q], b, s'.bios[b].block);
    } else {
      forall r, c | 0 <= r < |s'.processes| && 0 <= c < |s'.bios|
        ensures AimsAt(s'.processes[r], c, s'.bios[c].block)
      {
        assert AimsAt(s.processes[r], c, s.bios[c].block);
      }
    }
  }

  /**
   The cache stays exact exactly as long as no buffer is given to another block while somebody waits for
   it, and no block is brought in twice by a process that had to wait for any buffer.
   */
  lemma StaysExact(s: Cache, disk: Disk, e: Event)
    requires Sound(s, disk) && Enabled(s, disk, e) && Exact(s)
    ensures Exact(Step(s, disk, e)) <==> Careful(s, e)
  {
    match e
    case Getting(p, want, room) =>
      FindMeans(s.bios, s.recent, want.Target());
      if Find(s.bios, s.recent, want.Target()) == -1 {
        TakeAnyExact(s, disk, p, want, room);
      } else {
        TakeOrSleepExact(s, p, Find(s.bios, s.recent, want.Target()), want);
      }
    case Resuming(p, room) => ResumeExact(s, disk, p, room);
    case Reading(p) =>
      AimsOf(s, p);
      ExactKept(s, Read(s, p), p, p);
    case Completing(b, error, data) =>
      FirstReads(s, b);
      AimsOf(s, s.bios[b].queue[0]);
      ExactKept(s, Completed(s, b, error, data), s.bios[b].queue[0], s.bios[b].queue[0]);
    case Releasing(p) => ReleaseExact(s, disk, p);
  }

  lemma AimsOf(s: Cache, p: nat)
    requires Aimed(s) && p < |s.processes|
    ensures forall b :: 0 <= b < |s.bios| ==> AimsAt(s.processes[p], b, s.bios[b].block)
  {
  }

  lemma ResumeExact(s: Cache, disk: Disk, p: nat, room: bool)
    requires Sound(s, disk) && Enabled(s, disk, Resuming(p, room)) && Exact(s)
    ensures Exact(Step(s, disk, Resuming(p, room))) <==> Careful(s, Resuming(p, room))
  {
    AimsOf(s, p);
    match s.processes[p].phase
    case Waits(b, want) =>
      assert AimsAt(s.processes[p], b, s.bios[b].block);
      TakeOrSleepExact(s, p, b, want);
    case WaitsAny(want) => TakeAnyExact(s, disk, p, want, room);
    case Reads(b, want) => ExactKept(s, ReadEnds(s, p), p, p);
  }

  lemma ReleaseExact(s: Cache, disk: Disk, p: nat)
    requires Sound(s, disk) && Holding(s, p) && Exact(s)
    ensures CanRelease(s, p) && Exact(Release(s, p))
  {
    ReleasePossible(s, p);
    ReleaseOthers(s, p);
    AimsOf(s, WokenBy(s, p));
    ExactKept(s, Release(s, p), p, WokenBy(s, p));
  }

  // ----- the iterator

  lemma StepAtSector(s: Cache, disk: Disk, e: Event)
    requires Sound(s, disk) && Enabled(s, disk, e) && AtSector(s)
    ensures AtSector(Step(s, disk, e))
  {
    match e
    case Getting(p, want, room) =>
      if Find(s.bios, s.recent, want.Target()) == -1 {
        TakeAnyAtSector(s, p, want, room);
      } else {
        TakeOrSleepAtSector(s, p, Find(s.bios, s.recent, want.Target()), want);
      }
    case Resuming(p, room) => ResumeAtSector(s, disk, p, room);
    case Reading(p) => HoldersAtSector(s, Read(s, p), p, p);
    case Completing(b, error, data) =>
      FirstReads(s, b);
      HoldersAtSector(s, Completed(s, b, error, data), s.bios[b].queue[0], s.bios[b].queue[0]);
    case Releasing(p) =>
      ReleasePossible(s, p);
      WokenWaits(s, p);
      ReleaseOthers(s, p);
      HoldersAtSector(s, Release(s, p), p, WokenBy(s, p));
  }

  lemma ResumeAtSector(s: Cache, disk: Disk, p: nat, room: bool)
    requires Sound(s, disk) && Enabled(s, disk, Resuming(p, room)) && AtSector(s)
    ensures AtSector(Resume(s, p, room))
  {
    match s.processes[p].phase
    case Waits(b, want) => TakeOrSleepAtSector(s, p, b, want);
    case WaitsAny(want) => TakeAnyAtSector(s, p, want, room);
    case Reads(_, _) => HoldersAtSector(s, ReadEnds(s, p), p, p);
  }

  /** No process becomes a holder, and no iterator moves. */
  lemma HoldersAtSector(s: Cache, s': Cache, p: nat, q: nat)
    requires AtSector(s) && OthersSame(s, s', p, q) && |s'.bios| == |s.bios| && p < |s.processes| && q < |s.processes|
    requires forall b :: 0 <= b < |s.bios| ==> s'.bios[b].block == s.bios[b].block && s'.bios[b].iter == s.bios[b].iter
    requires forall r, b :: (r == p || r == q) && Holder(s'.processes[r], b) ==>
                              Holder(s.processes[r], b) && s'.processes[r].phase.want == s.processes[r].phase.want
    ensures AtSector(s')
  {
    forall r, b | 0 <= r < |s'.processes| && 0 <= b < |s'.bios| && Holder(s'.processes[r], b)
      ensures s'.bios[b].iter == (s'.processes[r].phase.want.sector - s'.bios[b].block.base) % 256
    {
      assert Holder(s.processes[r], b);
    }
  }

  lemma TakeOrSleepAtSector(s: Cache, p: nat, b: nat, want: Want)
    requires HeldOk(s) && Free(s, p, b) && b < |s.bios| && AtSector(s)
    ensures AtSector(TakeOrSleep(s, p, b, want))
  {
  }

  lemma TakeAnyAtSector(s: Cache, p: nat, want: Want, room: bool)
    requires Listed(s) && PhasesOk(s) && HeldOk(s) && FreeOfAll(s, p) && AtSector(s)
    ensures AtSector(TakeAny(s, p, want, room))
  {
    FindUnusedMeans(s.bios, s.recent);
  }

  // ----- runs

  ghost predicate CarefulRun(s: Cache, disk: Disk, events: seq<Event>)
    requires Sound(s, disk) && Possible(s, disk, events)
    decreases |events|
  {
    events == [] ||
    (Careful(s, events[0]) && (StepSound(s, disk, events[0]); CarefulRun(Step(s, disk, events[0]), disk, events[1..])))
  }

  ghost predicate ExactThroughout(s: Cache, disk: Disk, events: seq<Event>)
    requires Sound(s, disk) && Possible(s, disk, events)
    decreases |events|
  {
    && Exact(s)
    && (events == [] || (StepSound(s, disk, events[0]);
                         ExactThroughout(Step(s, disk, events[0]), disk, events[1..])))
  }

  /** All along a run the cache is exact if and only if every allocation in it is careful. */
  lemma {:induction false} ExactIfCareful(s: Cache, disk: Disk, events: seq<Event>)
    requires Sound(s, disk) && Possible(s, disk, events) && Exact(s)
    ensures ExactThroughout(s, disk, events) <==> CarefulRun(s, disk, events)
    decreases |events|
  {
    if events != [] {
      StepSound(s, disk, events[0]);
      StaysExact(s, disk, events[0]);
      var s' := Step(s, disk, events[0]);
      if Exact(s') {
        ExactIfCareful(s', disk, events[1..]);
      }
    }
  }

  lemma {:induction false} ExactAfter(s: Cache, disk: Disk, events: seq<Event>)
    requires Sound(s, disk) && Possible(s, disk, events) && ExactThroughout(s, disk, events) && AtSector(s)
    ensures Exact(After(s, disk, events)) && AtSector(After(s, disk, events))
    decreases |events|
  {
    if events != [] {
      StepSound(s, disk, events[0]);
      StepAtSector(s, disk, events[0]);
      ExactAfter(Step(s, disk, events[0]), disk, events[1..]);
    }
  }

  /**
   Reading through the cache is reading the device: a process that holds a buffer which bio_read has found
   or made valid sees there the block of the sector it asked for, with the iterator at that sector.
   */
  lemma ReadsDevice(n: nat, disk: Disk, events: seq<Event>, p: nat)
    requires Sound(Empty(n), disk) && Possible(Empty(n), disk, events) && CarefulRun(Empty(n), disk, events)
    requires Holding(After(Empty(n), disk, events), p)
    ensures var s := After(Empty(n), disk, events);
            var Holds(b, want) := s.processes[p].phase;
            && s.bios[b].iter < SECTORS_PER_BIO && s.bios[b].block.base + s.bios[b].iter == want.sector
            && (s.bios[b].updated ==> s.bios[b].buffer == disk(want.Target()))
  {
    ExactIfCareful(Empty(n), disk, events);
    ExactAfter(Empty(n), disk, events);
    HoldsWanted(After(Empty(n), disk, events), disk, p);
  }

  lemma HoldsWanted(s: Cache, disk: Disk, p: nat)
    requires Sound(s, disk) && Exact(s) && AtSector(s) && Holding(s, p)
    ensures var Holds(b, want) := s.processes[p].phase;
            && s.bios[b].iter < SECTORS_PER_BIO && s.bios[b].block.base + s.bios[b].iter == want.sector
            && (s.bios[b].updated ==> s.bios[b].buffer == disk(want.Target()))
  {
    var Holds(b, want) := s.processes[p].phase;
    assert AimsAt(s.processes[p], b, s.bios[b].block) && Holder(s.processes[p], b);
  }

  // ----- runs that are careful

  ghost predicate NobodyWaitsAny(s: Cache) {
    forall p :: 0 <= p < |s.processes| ==> !s.processes[p].phase.WaitsAny?
  }

  predicate HasRoom(e: Event) {
    (e.Getting? ==> e.room) && (e.Resuming? ==> e.room)
  }

  lemma StepWithRoom(s: Cache, disk: Disk, e: Event)
    requires Sound(s, disk) && Enabled(s, disk, e) && NobodyWaitsAny(s) && HasRoom(e) && |s.bios| < CACHE_LIMIT
    ensures Careful(s, e) && NobodyWaitsAny(Step(s, disk, e))
  {
    match e
    case Getting(p, want, room) => FindMeans(s.bios, s.recent, want.Target());
    case Resuming(p, room) =>
    case Reading(p) =>
    case Completing(b, error, data) => FirstReads(s, b);
    case Releasing(p) =>
      ReleasePossible(s, p);
      WokenWaits(s, p);
      ReleaseOthers(s, p);
  }

  lemma NeverShrinks(s: Cache, disk: Disk, e: Event)
    requires Sound(s, disk) && Enabled(s, disk, e)
    ensures |s.bios| <= |Step(s, disk, e).bios|
  {
  }

  lemma {:induction false} NeverShrinksAfter(s: Cache, disk: Disk, events: seq<Event>)
    requires Sound(s, disk) && Possible(s, disk, events)
    ensures |s.bios| <= |After(s, disk, events).bios|
    decreases |events|
  {
    if events != [] {
      StepSound(s, disk, events[0]);
      NeverShrinks(s, disk, events[0]);
      NeverShrinksAfter(Step(s, disk, events[0]), disk, events[1..]);
    }
  }

  /** Below capacity, and while there is memory, every run is careful. */
  lemma {:induction false} BelowCapacity(s: Cache, disk: Disk, events: seq<Event>)
    requires Sound(s, disk) && Possible(s, disk, events) && NobodyWaitsAny(s)
    requires forall i :: 0 <= i < |events| ==> HasRoom(events[i])
    requires |After(s, disk, events).bios| < CACHE_LIMIT
    ensures CarefulRun(s, disk, events)
    decreases |events|
  {
    if events != [] {
      NeverShrinksAfter(s, disk, events);
      StepSound(s, disk, events[0]);
      StepWithRoom(s, disk, events[0]);
      BelowCapacity(Step(s, disk, events[0]), disk, events[1..]);
    }
  }

  /** The only process never waits for another one. */
  ghost predicate Alone(s: Cache) {
    && |s.processes| == 1
    && (s.processes[0].phase.WaitsAny? || s.processes[0].phase.Waits? ==> s.processes[0].asleep)
  }

  lemma StepAlone(s: Cache, disk: Disk, e: Event)
    requires Sound(s, disk) && Enabled(s, disk, e) && Alone(s)
    ensures Careful(s, e) && Alone(Step(s, disk, e))
  {
    match e
    case Getting(p, want, room) => FindMeans(s.bios, s.recent, want.Target());
    case Resuming(p, room) =>
    case Reading(p) =>
    case Completing(b, error, data) => FirstReads(s, b);
    case Releasing(p) =>
      ReleasePossible(s, p);
      WokenWaits(s, p);
  }

  /** And so is every run of a single process, at capacity and without memory as well. */
  lemma {:induction false} SingleProcess(s: Cache, disk: Disk, events: seq<Event>)
    requires Sound(s, disk) && Possible(s, disk, events) && Alone(s)
    ensures CarefulRun(s, disk, events)
    decreases |events|
  {
    if events != [] {
      StepSound(s, disk, events[0]);
      StepAlone(s, disk, events[0]);
      SingleProcess(Step(s, disk, events[0]), disk, events[1..]);
    }
  }

  // ----- a run that is not careful

  /** Process 1 waits for the first block, but the buffer is given to the next one before it looks again. */
  function Unlucky(): (events: seq<Event>)
    ensures |events| == 6
  {
    [Getting(0, Want(0, 0), true), Getting(1, Want(0, 0), true), Releasing(0),
     Getting(2, Want(0, 8), false), Releasing(2), Resuming(1, true)]
  }

  /** The only buffer, and three processes. */
  function Three(block: Block, reffed: bool, iter: nat, queue: seq<nat>, p0: Phase, p1: Phase, asleep: bool,
                 p2: Phase): Cache {
    Cache([Bio(block, reffed, false, iter, [], queue)], [0], [],
          [Process(p0, false), Process(p1, asleep), Process(p2, false)])
  }

  /** The cache before each of these events, and after the last. */
  function Stage(i: nat): Cache
    requires i <= 6
  {
    var first, second := Want(0, 0), Want(0, 8);
    if i == 0 then Empty(3)
    else if i == 1 then Three(first.Target(), true, 0, [], Holds(0, first), Idle, false, Idle)
    else if i == 2 then Three(first.Target(), true, 0, [1], Holds(0, first), Waits(0, first), true, Idle)
    else if i == 3 then Three(first.Target(), false, 0, [], Idle, Waits(0, first), false, Idle)
    else if i == 4 then Three(second.Target(), true, 0, [], Idle, Waits(0, first), false, Holds(0, second))
    else if i == 5 then Three(second.Target(), false, 0, [], Idle, Waits(0, first), false, Idle)
    else Three(second.Target(), true, 248, [], Idle, Holds(0, first), false, Idle)
  }

  lemma SameFields(s: Cache, t: Cache)
    requires |s.bios| == |t.bios| && forall b :: 0 <= b < |s.bios| ==> s.bios[b] == t.bios[b]
    requires s.recent == t.recent && s.anyone == t.anyone
    requires |s.processes| == |t.processes| && forall p :: 0 <= p < |s.processes| ==> s.processes[p] == t.processes[p]
    ensures s == t
  {
  }

  /** What an event leads to, where it needs no more than its own conditions. */
  predicate Leads(s: Cache, e: Event, t: Cache) {
    match e
    case Getting(p, want, room) => p < |s.processes| && (forall b :: b in s.recent ==> b < |s.bios|) &&
      Get(s, p, want, room) == t
    case Resuming(p, room) =>
      && p < |s.processes| && s.processes[p].phase.Waits? && s.processes[p].phase.bio < |s.bios|
      && (forall b :: b in s.recent ==> b < |s.bios|) && Resume(s, p, room) == t
    case Releasing(p) => CanRelease(s, p) && Release(s, p) == t
    case _ => false
  }

  lemma Stage0()
    ensures Leads(Stage(0), Unlucky()[0], Stage(1))
  {
    SameFields(Get(Stage(0), 0, Want(0, 0), true), Stage(1));
  }

  lemma Stage1()
    ensures Leads(Stage(1), Unlucky()[1], Stage(2))
  {
    SameFields(Get(Stage(1), 1, Want(0, 0), true), Stage(2));
  }

  lemma Stage2()
    ensures Leads(Stage(2), Unlucky()[2], Stage(3))
  {
    SameFields(Release(Stage(2), 0), Stage(3));
  }

  lemma Stage3()
    ensures Leads(Stage(3), Unlucky()[3], Stage(4))
  {
    var s := Stage(3);
    assert Find(s.bios, s.recent, Want(0, 8).Target()) == -1;
    assert FindUnused(s.bios, s.recent) == 0;
    assert Without([0], 0) == [];
    SameFields(Get(s, 2, Want(0, 8), false), Stage(4));
  }

  lemma Stage4()
    ensures Leads(Stage(4), Unlucky()[4], Stage(5))
  {
    SameFields(Release(Stage(4), 2), Stage(5));
  }

  lemma Stage5()
    ensures Leads(Stage(5), Unlucky()[5], Stage(6))
  {
    assert Without([0], 0) == [];
    SameFields(Resume(Stage(5), 1, true), Stage(6));
  }

  lemma EachStage(i: nat)
    requires i < 6
    ensures Leads(Stage(i), Unlucky()[i], Stage(i + 1))
  {
    match i
    case 0 => Stage0();
    case 1 => Stage1();
    case 2 => Stage2();
    case 3 => Stage3();
    case 4 => Stage4();
    case 5 => Stage5();
  }

  lemma {:induction false} ThroughStages(disk: Disk, events: seq<Event>, i: nat)
    requires i <= 6 && Sound(Stage(i), disk) && |events| == 6
    requires forall k: nat :: k < 6 ==> events[k] == Unlucky()[k]
    ensures Possible(Stage(i), disk, events[i..]) && After(Stage(i), disk, events[i..]) == Stage(6)
    decreases 6 - i
  {
    if i < 6 {
      EachStage(i);
      StageAwake(i);
      assert events[i..][0] == events[i] && events[i..][1..] == events[i + 1..];
      LeadsStep(Stage(i), disk, events[i], Stage(i + 1));
      ThroughStages(disk, events, i + 1);
    }
  }

  lemma StageAwake(i: nat)
    requires i < 6
    ensures var e := Unlucky()[i];
            var s := Stage(i);
            && (e.Getting? ==> e.p < |s.processes| && s.processes[e.p].phase.Idle?)
            && (e.Resuming? ==> e.p < |s.processes| && !s.processes[e.p].asleep)
  {
  }

  lemma LeadsStep(s: Cache, disk: Disk, e: Event, t: Cache)
    requires Sound(s, disk) && Leads(s, e, t)
    requires e.Getting? ==> s.processes[e.p].phase.Idle?
    requires e.Resuming? ==> !s.processes[e.p].asleep
    ensures Enabled(s, disk, e) && Step(s, disk, e) == t && Sound(t, disk)
  {
    StepSound(s, disk, e);
  }

  lemma UnluckyRun() returns (events: seq<Event>)
    ensures |events| == 6 && forall k: nat :: k < 6 ==> events[k] == Unlucky()[k]
  {
    events := Unlucky();
  }

  /**
   With memory short, a process can get a buffer of a block it did not ask for, with the iterator outside
   the buffer.
   */
  lemma WrongBlock(disk: Disk) returns (events: seq<Event>)
    ensures Sound(Empty(3), disk) && Possible(Empty(3), disk, events) && After(Empty(3), disk, events) == Stage(6)
    ensures var s := Stage(6);
            && s.processes[1].phase == Holds(0, Want(0, 0)) && s.bios[0].block == Block(0, 8) &&
               s.bios[0].iter >= SECTORS_PER_BIO
  {
    events := UnluckyRun();
    EmptySound(3, disk);
    ThroughStages(disk, events, 0);
    assert events[0..] == events;
  }
}
