/** The block cache: records in a list by last use, each with its queue of processes. */
module BufferCache {
  import opened Bytes
  import opened IntrusiveList
  import opened SleepQueues
  import opened BlockCache
  import opened BlockCacheMoves
  import opened BlockCacheRuns

  /** The fields of struct bio but the links and the queue. */
  datatype Record = Record(block: Block, reffed: bool, updated: bool, iter: nat, buffer: seq<Byte>)

  function RecordOf(bio: Bio): Record {
    Record(bio.block, bio.reffed, bio.updated, bio.iter, bio.buffer)
  }

  ghost predicate RecordsMatch(records: seq<Record>, bios: seq<Bio>) {
    |bios| <= |records| && forall b :: 0 <= b < |bios| ==> records[b] == RecordOf(bios[b])
  }

  ghost predicate QueuesMatch(queues: seq<seq<nat>>, cache: Cache) {
    && |cache.bios| <= CACHE_LIMIT && |queues| == CACHE_LIMIT + 1 && queues[CACHE_LIMIT] == cache.anyone
    && forall b :: 0 <= b < CACHE_LIMIT ==> queues[b] == (if b < |cache.bios| then cache.bios[b].queue else [])
  }

  /** The process sleeps nowhere: it may go to sleep. */
  lemma AwakeIsNotQueued(queues: seq<seq<nat>>, cache: Cache, p: nat)
    requires QueuesMatch(queues, cache) && QueuesOk(cache) && p < |cache.processes| && !cache.processes[p].asleep
    ensures !Queued(queues, p)
  {
    forall k | 0 <= k < |queues|
      ensures p !in queues[k]
    {
      if k < |cache.bios| {
        QueueMeans(cache, k, p);
      }
    }
  }

  lemma {:induction false} WithoutIs(s: seq<nat>, i: nat)
    requires Distinct(s) && i < |s|
    ensures Without(s, s[i]) == RemoveAt(s, i)
  {
    if i > 0 {
      assert s[0] != s[i];
      WithoutIs(s[1..], i - 1);
      assert [s[0]] + RemoveAt(s[1..], i - 1) == RemoveAt(s, i);
    }
  }

  /** A search from the front ends at the first that is for the block. */
  lemma {:induction false} FindStops(bios: seq<Bio>, recent: seq<nat>, block: Block, i: nat)
    requires i <= |recent| && Within(recent, |bios|)
    requires forall j :: 0 <= j < i ==> bios[recent[j]].block != block
    requires i < |recent| ==> bios[recent[i]].block == block
    ensures Find(bios, recent, block) == if i < |recent| then recent[i] else -1
  {
    if i > 0 {
      FindStops(bios, recent[1..], block, i - 1);
    }
  }

  /** A search from the back ends at the last that nobody holds. */
  lemma {:induction false} FindUnusedStops(bios: seq<Bio>, recent: seq<nat>, i: nat)
    requires i <= |recent| && Within(recent, |bios|)
    requires forall j :: i <= j < |recent| ==> bios[recent[j]].reffed
    requires i > 0 ==> !bios[recent[i - 1]].reffed
    ensures FindUnused(bios, recent) == if i > 0 then recent[i - 1] else -1
  {
    if i < |recent| {
      FindUnusedStops(bios, recent[..|recent| - 1], i);
    }
  }

  lemma ListedWithin(s: Cache)
    requires Listed(s)
    ensures Within(s.recent, |s.bios|)
  {
    forall i | 0 <= i < |s.recent|
      ensures s.recent[i] < |s.bios|
    {
      assert s.recent[i] in s.recent;
    }
  }

  class Buffers {
    const links: Links
    const sleepers: Sleepers
    const records: array<Record>
    var count: nat
    ghost var cache: Cache

    ghost predicate Valid()
      reads this, links, links.next, links.prev, sleepers, sleepers.heads, sleepers.next, sleepers.asleep, records
    {
      Tied() && links.lists[0] == cache.recent
    }

    /** Everything but the list by last use. */
    ghost predicate Tied()
      reads this, links, links.next, links.prev, sleepers, sleepers.heads, sleepers.next, sleepers.asleep, records
    {
      && links.Valid() && links.base == CACHE_LIMIT && links.count == 1
      && sleepers.Valid() && sleepers.next.Length == |cache.processes| && QueuesMatch(sleepers.queues, cache)
      && {links.next, links.prev} !! {sleepers.heads, sleepers.next}
      && records.Length == CACHE_LIMIT && RecordsMatch(records[..], cache.bios) && count == |cache.bios|
    }

    constructor (processes: nat, r: Record)
      ensures Valid() && cache == Empty(processes)
    {
      links := new Links(CACHE_LIMIT, 1);
      sleepers := new Sleepers(CACHE_LIMIT + 1, processes);
      records := new Record[CACHE_LIMIT](_ => r);
      count := 0;
      cache := Empty(processes);
    }

    method FindBio(block: Block) returns (b: int)
      requires Valid() && Listed(cache)
      ensures b == Find(cache.bios, cache.recent, block)
    {
      ghost var i := 0;
      ListedWithin(cache);
      b := links.First(0);
      while b != links.base && records[b].block != block
        invariant 0 <= i <= |cache.recent| && b == At(links.base, cache.recent, i + 1) && 0 <= b <= links.base
        invariant forall j :: 0 <= j < i ==> cache.bios[cache.recent[j]].block != block
        decreases |cache.recent| - i
      {
        b := links.Next(b, 0, i + 1);
        i := i + 1;
      }
      FindStops(cache.bios, cache.recent, block, i);
      if b == links.base {
        b := -1;
      }
    }

    method FindUnusedBio() returns (b: int)
      requires Valid() && Listed(cache)
      ensures b == FindUnused(cache.bios, cache.recent)
    {
      ghost var i := |cache.recent|;
      ListedWithin(cache);
      b := links.Prev(links.base, 0, i + 1);
      while b != links.base && records[b].reffed
        invariant 0 <= i <= |cache.recent| && b == At(links.base, cache.recent, i) && 0 <= b <= links.base
        invariant forall j :: i <= j < |cache.recent| ==> cache.bios[cache.recent[j]].reffed
        decreases i
      {
        b := links.Prev(b, 0, i);
        i := i - 1;
      }
      FindUnusedStops(cache.bios, cache.recent, i);
      if b == links.base {
        b := -1;
      }
    }

    /** The end of bio_get. A new buffer is not on the list yet. */
    method TakeBio(p: nat, b: nat, want: Want, isNew: bool)
      requires Tied() && Listed(cache) && p < |cache.processes| && b < |cache.bios|
      requires if isNew then links.Unlinked(b) && cache.recent == [b] + links.lists[0]
               else links.lists[0] == cache.recent
      modifies this`cache, links, links.next, links.prev, records
      ensures Valid() && cache == Take(old(cache), p, b, want)
    {
      if !isNew {
        assert b in cache.recent;
        ghost var i :| 0 <= i < |cache.recent| && cache.recent[i] == b;
        WithoutIs(cache.recent, i);
        links.Remove(b, 0, i);
      } else {
        assert Without(cache.recent, b) == links.lists[0];
      }
      links.InsertHead(0, b);
      MarkTaken(p, b, want);
    }

    method MarkTaken(p: nat, b: nat, want: Want)
      requires Tied() && p < |cache.processes| && b < |cache.bios|
      modifies this`cache, records
      ensures Tied() && cache == Take(old(cache), p, b, want)
    {
      ghost var before := records[..];
      records[b] := records[b].(reffed := true, iter := (want.sector - records[b].block.base) % 256);
      assert records[..] == before[b := records[b]];
      cache := Take(cache, p, b, want);
    }

    /** sleep_wait_bio for a buffer. */
    method SleepOnBio(p: nat, b: nat, want: Want)
      requires Valid() && QueuesOk(cache) && p < |cache.processes| && !cache.processes[p].asleep && b < |cache.bios|
      modifies this`cache, sleepers, sleepers.heads, sleepers.next, sleepers.asleep
      ensures Valid() && cache == SleepOn(old(cache), p, b, want)
    {
      AwakeIsNotQueued(sleepers.queues, cache, p);
      sleepers.WaitLast(b, p);
      cache := SleepOn(cache, p, b, want);
    }

    /** The loop of bio_get, once. */
    method TakeOrSleepBio(p: nat, b: nat, want: Want)
      requires Valid() && Listed(cache) && QueuesOk(cache) && p < |cache.processes| && !cache.processes[p].asleep &&
               b < |cache.bios|
      modifies this`cache, links, links.next, links.prev, records, sleepers, sleepers.heads, sleepers.next,
               sleepers.asleep
      ensures Valid() && cache == TakeOrSleep(old(cache), p, b, want)
    {
      if records[b].reffed {
        SleepOnBio(p, b, want);
      } else {
        TakeBio(p, b, want, false);
      }
    }

    /** slab_alloc_bio. */
    method SlabAllocBio(block: Block) returns (b: nat)
      requires Valid() && Listed(cache) && count < CACHE_LIMIT
      modifies this`cache, this`count, records
      ensures Tied() && cache == Grown(old(cache), block) && b == |old(cache).bios|
      ensures links.Unlinked(b) && cache.recent == [b] + links.lists[0]
    {
      b := count;
      ghost var before := records[..];
      records[b] := Record(block, false, false, 0, []);
      assert records[..] == before[b := records[b]];
      count := count + 1;
      cache := Grown(cache, block);
    }

    /** A buffer that nobody holds, for another block. */
    method ReuseBio(b: nat, block: Block)
      requires Valid() && b < |cache.bios|
      modifies this`cache, records
      ensures Valid() && cache == Reused(old(cache), b, block)
    {
      ghost var before := records[..];
      records[b] := records[b].(block := block, updated := false, reffed := false);
      assert records[..] == before[b := records[b]];
      cache := Reused(cache, b, block);
    }

    /** The loop of alloc_bio, once, and the rest of bio_get. */
    method AllocBio(p: nat, want: Want, room: bool)
      requires Valid() && Listed(cache) && QueuesOk(cache) && p < |cache.processes| && !cache.processes[p].asleep
      modifies this`cache, this`count, links, links.next, links.prev, records, sleepers, sleepers.heads,
               sleepers.next, sleepers.asleep
      ensures Valid() && cache == TakeAny(old(cache), p, want, room)
    {
      if count < CACHE_LIMIT && room {
        GrownListed(cache, want.Target());
        var b := SlabAllocBio(want.Target());
        TakeBio(p, b, want, true);
      } else {
        var b := FindUnusedBio();
        if b == -1 {
          AwakeIsNotQueued(sleepers.queues, cache, p);
          sleepers.WaitLast(CACHE_LIMIT, p);
          cache := SleepAny(cache, p, want);
        } else {
          ReuseBio(b, want.Target());
          TakeBio(p, b, want, false);
        }
      }
    }

    /** bio_get, up to where it returns or gives up the processor. */
    method BioGet(p: nat, want: Want, room: bool, ghost disk: Disk)
      requires Valid() && Sound(cache, disk) && Enabled(cache, disk, Getting(p, want, room))
      modifies this`cache, this`count, links, links.next, links.prev, records, sleepers, sleepers.heads,
               sleepers.next, sleepers.asleep
      ensures Valid() && cache == Step(old(cache), disk, Getting(p, want, room)) && Sound(cache, disk)
    {
      StepSound(cache, disk, Getting(p, want, room));
      var b := FindBio(want.Target());
      if b == -1 {
        AllocBio(p, want, room);
      } else {
        TakeOrSleepBio(p, b, want);
      }
    }

    /** bio_get goes on after the process was woken; `b` is the buffer it waits for, or -1 for any. */
    method BioGetAgain(p: nat, b: int, want: Want, room: bool, ghost disk: Disk)
      requires Valid() && Sound(cache, disk) && Enabled(cache, disk, Resuming(p, room))
      requires cache.processes[p].phase == (if b < 0 then WaitsAny(want) else Waits(b, want))
      modifies this`cache, this`count, links, links.next, links.prev, records, sleepers, sleepers.heads,
               sleepers.next, sleepers.asleep
      ensures Valid() && cache == Step(old(cache), disk, Resuming(p, room)) && Sound(cache, disk)
    {
      StepSound(cache, disk, Resuming(p, room));
      if b < 0 {
        AllocBio(p, want, room);
      } else {
        TakeOrSleepBio(p, b, want);
      }
    }

    /** bio_read, up to where it returns or gives up the processor; `done` if it returns at once. */
    method BioRead(p: nat, b: nat, ghost disk: Disk) returns (done: bool)
      requires Valid() && Sound(cache, disk) && Enabled(cache, disk, Event.Reading(p)) &&
               cache.processes[p].phase.bio == b
      modifies this`cache, sleepers, sleepers.heads, sleepers.next, sleepers.asleep
      ensures Valid() && cache == Step(old(cache), disk, Event.Reading(p)) && Sound(cache, disk)
      ensures done <==> old(cache.bios[b].updated)
    {
      StepSound(cache, disk, Event.Reading(p));
      done := ReadOrSleep(p, b);
    }

    method ReadOrSleep(p: nat, b: nat) returns (done: bool)
      requires Valid() && QueuesOk(cache) && Holding(cache, p) && !cache.processes[p].asleep &&
               cache.processes[p].phase.bio == b
      modifies this`cache, sleepers, sleepers.heads, sleepers.next, sleepers.asleep
      ensures Valid() && cache == Read(old(cache), p) && (done <==> old(cache.bios[b].updated))
    {
      done := records[b].updated;
      if !done {
        AwakeIsNotQueued(sleepers.queues, cache, p);
        sleepers.WaitFirst(b, p);
      }
      cache := Read(cache, p);
    }

    /** bio_read goes on after the read has ended. */
    method BioReadEnds(p: nat, b: nat, room: bool, ghost disk: Disk) returns (ok: bool)
      requires Valid() && Sound(cache, disk) && Enabled(cache, disk, Resuming(p, room))
      requires cache.processes[p].phase.Reads? && cache.processes[p].phase.bio == b
      modifies this`cache
      ensures Valid() && cache == Step(old(cache), disk, Resuming(p, room)) && Sound(cache, disk)
      ensures ok ==> cache.bios[b].buffer == disk(cache.bios[b].block)
    {
      StepSound(cache, disk, Resuming(p, room));
      cache := ReadEnds(cache, p);
      ok := records[b].updated;
    }

    /** ide_read_complete. */
    method IdeReadComplete(b: nat, error: bool, data: seq<Byte>, ghost disk: Disk) returns (p: nat)
      requires Valid() && Sound(cache, disk) && Enabled(cache, disk, Completing(b, error, data))
      modifies this`cache, records, sleepers, sleepers.heads, sleepers.next, sleepers.asleep
      ensures Valid() && cache == Step(old(cache), disk, Completing(b, error, data)) && Sound(cache, disk)
      ensures ReadBy(old(cache), b, p)
    {
      StepSound(cache, disk, Completing(b, error, data));
      FirstReads(cache, b);
      p := CompleteAndWake(b, error, data);
    }

    method CompleteAndWake(b: nat, error: bool, data: seq<Byte>) returns (p: nat)
      requires Valid() && b < |cache.bios| && cache.bios[b].queue != [] && cache.bios[b].queue[0] < |cache.processes|
      modifies this`cache, records, sleepers, sleepers.heads, sleepers.next, sleepers.asleep
      ensures Valid() && cache == Completed(old(cache), b, error, data) && p == old(cache.bios[b].queue[0])
    {
      ghost var before := records[..];
      records[b] := records[b].(updated := records[b].updated || !error, buffer := data);
      assert records[..] == before[b := records[b]];
      p := sleepers.WakeFirst(b);
      cache := Completed(cache, b, error, data);
    }

    /** bio_release. */
    method BioRelease(p: nat, b: nat, ghost disk: Disk)
      requires Valid() && Sound(cache, disk) && Enabled(cache, disk, Releasing(p)) && cache.processes[p].phase.bio == b
      modifies this`cache, records, sleepers, sleepers.heads, sleepers.next, sleepers.asleep
      ensures Valid() && cache == Step(old(cache), disk, Releasing(p)) && Sound(cache, disk)
    {
      StepSound(cache, disk, Releasing(p));
      ReleasePossible(cache, p);
      FreeAndWake(p, b);
    }

    method FreeAndWake(p: nat, b: nat)
      requires Valid() && CanRelease(cache, p) && cache.processes[p].phase.bio == b
      modifies this`cache, records, sleepers, sleepers.heads, sleepers.next, sleepers.asleep
      ensures Valid() && cache == Release(old(cache), p)
    {
      ghost var before := records[..];
      records[b] := records[b].(reffed := false);
      assert records[..] == before[b := records[b]];
      WakeUpSleepProcess(b);
      cache := Release(cache, p);
    }

    /** wake_up_sleep_process. */
    method WakeUpSleepProcess(b: nat)
      requires sleepers.Valid() && QueuesMatch(sleepers.queues, cache) && b < |cache.bios|
      modifies sleepers, sleepers.heads, sleepers.next, sleepers.asleep
      ensures sleepers.Valid()
      ensures var was := old(sleepers.queues);
              sleepers.queues == if was[b] != [] then was[b := was[b][1..]]
                                 else if was[CACHE_LIMIT] != [] then was[CACHE_LIMIT := was[CACHE_LIMIT][1..]]
                                 else was
    {
      var nobody := sleepers.IsEmpty(b);
      if !nobody {
        var _ := sleepers.WakeFirst(b);
      } else {
        nobody := sleepers.IsEmpty(CACHE_LIMIT);
        if !nobody {
          var _ := sleepers.WakeFirst(CACHE_LIMIT);
        }
      }
    }
  }
}
