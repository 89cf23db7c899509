/**
 Runs of the block cache: all interleavings of any number of processes, with the completions of the drive
 and the outcomes of memory allocation as they may come.
 */
module BlockCacheRuns {
  import opened Bytes
  import opened IntrusiveList
  import opened BlockCache
  import opened BlockCacheMoves

  /** What happens between two points where a process gives up the processor. */
  datatype Event =
    | Getting(p: nat, want: Want, room: bool)
    | Resuming(p: nat, room: bool)
    | Reading(p: nat)
    | Completing(b: nat, error: bool, data: seq<Byte>)
    | Releasing(p: nat)

  ghost predicate ReadUnderWay(s: Cache, b: nat) {
    exists p :: ReadBy(s, b, p)
  }

  /**
   A process asks for one buffer at a time, holds it when it reads or releases it, and goes on only when it
   is awake; the drive completes reads that are under way, and has the data of the device unless it fails.
   */
  ghost predicate Enabled(s: Cache, disk: Disk, e: Event) {
    match e
    case Getting(p, _, _) => p < |s.processes| && s.processes[p].phase.Idle?
    case Resuming(p, _) => p < |s.processes| && !s.processes[p].asleep && !s.processes[p].phase.Idle? &&
      !s.processes[p].phase.Holds?
    case Reading(p) => Holding(s, p)
    case Completing(b, error, data) => b < |s.bios| && ReadUnderWay(s, b) && (!error ==> data == disk(s.bios[b].block))
    case Releasing(p) => Holding(s, p)
  }

  lemma {:induction false} FindMeans(bios: seq<Bio>, recent: seq<nat>, block: Block)
    requires forall b :: b in recent ==> b < |bios|
    ensures var b := Find(bios, recent, block);
            if b == -1 then forall c :: c in recent ==> bios[c].block != block
            else bios[b].block == block
  {
    if recent != [] {
      assert recent[0] in recent && forall b :: b in recent[1..] ==> b in recent;
      assert recent == [recent[0]] + recent[1..];
      if bios[recent[0]].block != block {
        FindMeans(bios, recent[1..], block);
      }
    }
  }

  lemma {:induction false} FindUnusedMeans(bios: seq<Bio>, recent: seq<nat>)
    requires forall b :: b in recent ==> b < |bios|
    ensures var b := FindUnused(bios, recent);
            if b == -1 then forall c :: c in recent ==> bios[c].reffed
            else !bios[b].reffed
  {
    if recent != [] {
      var n := |recent| - 1;
      assert recent[n] in recent && forall b :: b in recent[..n] ==> b in recent;
      assert recent == recent[..n] + [recent[n]];
      if bios[recent[n]].reffed {
        FindUnusedMeans(bios, recent[..n]);
      }
    }
  }

  ghost function Step(s: Cache, disk: Disk, e: Event): Cache
    requires Sound(s, disk) && Enabled(s, disk, e)
  {
    match e
    case Getting(p, want, room) => Get(s, p, want, room)
    case Resuming(p, room) => Resume(s, p, room)
    case Reading(p) => Read(s, p)
    case Completing(b, error, data) => FirstReads(s, b); Completed(s, b, error, data)
    case Releasing(p) => ReleasePossible(s, p); Release(s, p)
  }

  lemma FirstReads(s: Cache, b: nat)
    requires ReaderFirst(s) && QueuesOk(s) && b < |s.bios| && ReadUnderWay(s, b)
    ensures s.bios[b].queue != [] && s.bios[b].queue[0] < |s.processes| && ReadBy(s, b, s.bios[b].queue[0])
  {
    var p :| ReadBy(s, b, p);
    WakesReader(s, b, p);
  }

  lemma TakeAnySound(s: Cache, disk: Disk, p: nat, want: Want, room: bool)
    requires Core(s, disk) && FreeOfAll(s, p)
    ensures Sound(TakeAny(s, p, want, room), disk)
  {
    FindUnusedMeans(s.bios, s.recent);
    var b := FindUnused(s.bios, s.recent);
    if CanGrow(s, room) {
      GrownCore(s, disk, want.Target());
      TakeSound(Grown(s, want.Target()), disk, p, |s.bios|, want);
    } else if b == -1 {
      SleepAnySound(s, disk, p, want);
    } else {
      ReusedCore(s, disk, b, want.Target());
      TakeSound(Reused(s, b, want.Target()), disk, p, b, want);
    }
  }

  lemma TakeOrSleepSound(s: Cache, disk: Disk, p: nat, b: nat, want: Want)
    requires Core(s, disk) && Free(s, p, b) && b < |s.bios|
    ensures Sound(TakeOrSleep(s, p, b, want), disk)
  {
    if s.bios[b].reffed {
      SleepOnSound(s, disk, p, b, want);
    } else {
      TakeSound(s, disk, p, b, want);
    }
  }

  /** Every event keeps all that is said of the cache. */
  lemma StepSound(s: Cache, disk: Disk, e: Event)
    requires Sound(s, disk) && Enabled(s, disk, e)
    ensures Sound(Step(s, disk, e), disk)
  {
    match e
    case Getting(p, want, room) =>
      if Find(s.bios, s.recent, want.Target()) == -1 {
        TakeAnySound(s, disk, p, want, room);
      } else {
        TakeOrSleepSound(s, disk, p, Find(s.bios, s.recent, want.Target()), want);
      }
    case Resuming(p, room) =>
      match s.processes[p].phase {
        case Waits(b, want) => TakeOrSleepSound(s, disk, p, b, want);
        case WaitsAny(want) => TakeAnySound(s, disk, p, want, room);
        case Reads(b, want) => ReadEndsSound(s, disk, p);
      }
    case Reading(p) => ReadSound(s, disk, p);
    case Completing(b, error, data) =>
      FirstReads(s, b);
      CompletedSound(s, disk, b, s.bios[b].queue[0], error, data);
    case Releasing(p) => ReleaseSound(s, disk, p);
  }

  ghost predicate Possible(s: Cache, disk: Disk, events: seq<Event>)
    requires Sound(s, disk)
    decreases |events|
  {
    events == [] ||
    (Enabled(s, disk, events[0]) && (StepSound(s, disk, events[0]);
                                     Possible(Step(s, disk, events[0]), disk, events[1..])))
  }

  /** Whatever happens, in whatever order. */
  ghost function After(s: Cache, disk: Disk, events: seq<Event>): (s': Cache)
    requires Sound(s, disk) && Possible(s, disk, events)
    ensures Sound(s', disk)
    decreases |events|
  {
    if events == [] then s
    else
      StepSound(s, disk, events[0]);
      After(Step(s, disk, events[0]), disk, events[1..])
  }

  lemma EmptySound(n: nat, disk: Disk)
    ensures Sound(Empty(n), disk)
  {
  }

  // ----- nobody waits in vain

  /** The process can go on, or the drive will let it. */
  ghost predicate WillMove(s: Cache, p: nat) {
    p < |s.processes| && !s.processes[p].phase.Idle? && (s.processes[p].asleep ==> s.processes[p].phase.Reads?)
  }

  lemma HolderMoves(s: Cache, b: nat) returns (p: nat)
    requires HeldOk(s) && PhasesOk(s) && b < |s.bios| && s.bios[b].reffed
    ensures WillMove(s, p) && Holder(s.processes[p], b)
  {
    assert HasHolder(s, b);
    p :| 0 <= p < |s.processes| && Holder(s.processes[p], b);
  }

  /** While a process sleeps, there is one that will move; and if it waits for a buffer, one that has to do with it. */
  lemma NeverStuck(s: Cache, disk: Disk, p: nat) returns (q: nat)
    requires Sound(s, disk) && p < |s.processes| && s.processes[p].asleep && s.bios != []
    ensures WillMove(s, q)
    ensures s.processes[p].phase.Waits? ==> Uses(s.processes[q], s.processes[p].phase.bio)
  {
    match s.processes[p].phase
    case Reads(b, _) => q := p;
    case Waits(b, _) =>
      QueueMeans(s, b, p);
      if s.bios[b].reffed {
        q := HolderMoves(s, b);
      } else {
        assert Retester(s, b);
        q :| 0 <= q < |s.processes| && s.processes[q].phase.Waits? && Uses(s.processes[q], b) && !s.processes[q].asleep;
      }
    case WaitsAny(_) =>
      assert p in s.anyone;
      if SomeReffed(s) {
        var b :| 0 <= b < |s.bios| && s.bios[b].reffed;
        q := HolderMoves(s, b);
      } else {
        q :| 0 <= q < |s.processes| && (s.processes[q].phase.Waits? || s.processes[q].phase.WaitsAny?) &&
          !s.processes[q].asleep;
      }
  }

  /**
   While a process sleeps, another one will move exactly if there is a buffer at all, or somebody is about
   to look again.
   */
  lemma StuckExactly(s: Cache, disk: Disk, p: nat)
    requires Sound(s, disk) && p < |s.processes| && s.processes[p].asleep
    ensures (exists q :: WillMove(s, q)) <==> s.bios != [] || AnyRetester(s)
  {
    if s.bios != [] {
      var q := NeverStuck(s, disk, p);
    } else if AnyRetester(s) {
      var q :| 0 <= q < |s.processes| && (s.processes[q].phase.Waits? || s.processes[q].phase.WaitsAny?) &&
        !s.processes[q].asleep;
      assert WillMove(s, q);
    }
  }

  /** The only process, which finds no memory for the first buffer, sleeps for ever. */
  lemma SleepsForever(disk: Disk, want: Want, events: seq<Event>)
    requires Sound(Empty(1), disk) && Possible(Empty(1), disk, [Getting(0, want, false)] + events)
    ensures events == []
  {
    var first := Getting(0, want, false);
    var all := [first] + events;
    assert all[0] == first && all[1..] == events;
    StepSound(Empty(1), disk, first);
    var s := Step(Empty(1), disk, first);
    assert s.bios == [] && |s.processes| == 1 && s.processes[0] == Process(WaitsAny(want), true);
    forall e
      ensures !Enabled(s, disk, e)
    {
    }
  }
}
