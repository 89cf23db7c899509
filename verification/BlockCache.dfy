/**
 The protocol of the block cache between two points where a process gives up the processor. Nothing is
 written, so no buffer is ever dirty.
 */
module BlockCache {
  import opened Units
  import opened Bytes
  import opened IntrusiveList

  const CACHE_LIMIT: nat := 4096

  /** A device and the first of its sectors that go into one buffer. */
  datatype Block = Block(dev: nat, base: nat)

  datatype Want = Want(dev: nat, sector: nat) {
    function Target(): Block {
      Block(dev, sector / SECTORS_PER_BIO * SECTORS_PER_BIO)
    }
  }

  /**
   Where a process is: outside, in the loop of bio_get that waits for a buffer, in the loop of alloc_bio
   that waits for any buffer, holding a buffer, or inside bio_read.
   */
  datatype Phase =
    | Idle
    | Waits(bio: nat, want: Want)
    | WaitsAny(want: Want)
    | Holds(bio: nat, want: Want)
    | Reads(bio: nat, want: Want)

  /** A process in a waiting phase that is not asleep was woken and has not looked again yet. */
  datatype Process = Process(phase: Phase, asleep: bool)

  datatype Bio = Bio(block: Block, reffed: bool, updated: bool, iter: nat, buffer: seq<Byte>, queue: seq<nat>)

  datatype Cache = Cache(bios: seq<Bio>, recent: seq<nat>, anyone: seq<nat>, processes: seq<Process>)

  type Disk = Block -> seq<Byte>

  function Empty(processes: nat): Cache {
    Cache([], [], [], seq(processes, _ => Process(Idle, false)))
  }

  // ----- searches

  /** find_bio: the first of the list that is for this block, or -1. */
  function Find(bios: seq<Bio>, recent: seq<nat>, block: Block): (b: int)
    ensures b == -1 || b in recent
  {
    if recent == [] then -1
    else if recent[0] < |bios| && bios[recent[0]].block == block then recent[0]
    else Find(bios, recent[1..], block)
  }

  /** find_unused_bio: the last of the list that nobody holds, or -1. */
  function FindUnused(bios: seq<Bio>, recent: seq<nat>): (b: int)
    ensures b == -1 || b in recent
  {
    if recent == [] then -1
    else
      var last := recent[|recent| - 1];
      if last < |bios| && !bios[last].reffed then last else FindUnused(bios, recent[..|recent| - 1])
  }

  function Without(s: seq<nat>, n: nat): seq<nat> {
    if s == [] then [] else if s[0] == n then s[1..] else [s[0]] + Without(s[1..], n)
  }

  // ----- moves

  function WithProcess(s: Cache, p: nat, phase: Phase, asleep: bool): Cache
    requires p < |s.processes|
  {
    s.(processes := s.processes[p := Process(phase, asleep)])
  }

  function Woken(s: Cache, p: nat): Cache
    requires p < |s.processes|
  {
    s.(processes := s.processes[p := s.processes[p].(asleep := false)])
  }

  /** The end of bio_get: to the front of the list, and held. */
  function Take(s: Cache, p: nat, b: nat, want: Want): Cache
    requires p < |s.processes| && b < |s.bios|
  {
    var iter := (want.sector - s.bios[b].block.base) % 256;
    WithProcess(s, p, Holds(b, want), false)
      .(bios := s.bios[b := s.bios[b].(reffed := true, iter := iter)], recent := [b] + Without(s.recent, b))
  }

  /** sleep_wait_bio. */
  function SleepOn(s: Cache, p: nat, b: nat, want: Want): Cache
    requires p < |s.processes| && b < |s.bios|
  {
    WithProcess(s, p, Waits(b, want), true).(bios := s.bios[b := s.bios[b].(queue := s.bios[b].queue + [p])])
  }

  function SleepAny(s: Cache, p: nat, want: Want): Cache
    requires p < |s.processes|
  {
    WithProcess(s, p, WaitsAny(want), true).(anyone := s.anyone + [p])
  }

  function TakeOrSleep(s: Cache, p: nat, b: nat, want: Want): Cache
    requires p < |s.processes| && b < |s.bios|
  {
    if s.bios[b].reffed then SleepOn(s, p, b, want) else Take(s, p, b, want)
  }

  /** A new buffer, from slab_alloc_bio. */
  function Grown(s: Cache, block: Block): Cache {
    s.(bios := s.bios + [Bio(block, false, false, 0, [], [])], recent := [|s.bios|] + s.recent)
  }

  /** A buffer that is given to another block; those who wait for it go on waiting. */
  function Reused(s: Cache, b: nat, block: Block): Cache
    requires b < |s.bios|
  {
    s.(bios := s.bios[b := s.bios[b].(block := block, updated := false, reffed := false)])
  }

  predicate CanGrow(s: Cache, room: bool) {
    |s.bios| < CACHE_LIMIT && room
  }

  /** alloc_bio up to its sleep, and the rest of bio_get; `room` says whether there is memory for a buffer. */
  function TakeAny(s: Cache, p: nat, want: Want, room: bool): Cache
    requires p < |s.processes| && forall b :: b in s.recent ==> b < |s.bios|
  {
    if CanGrow(s, room) then Take(Grown(s, want.Target()), p, |s.bios|, want)
    else
      var b := FindUnused(s.bios, s.recent);
      if b == -1 then SleepAny(s, p, want) else Take(Reused(s, b, want.Target()), p, b, want)
  }

  function Get(s: Cache, p: nat, want: Want, room: bool): Cache
    requires p < |s.processes| && forall b :: b in s.recent ==> b < |s.bios|
  {
    var b := Find(s.bios, s.recent, want.Target());
    if b == -1 then TakeAny(s, p, want, room) else TakeOrSleep(s, p, b, want)
  }

  /** bio_read: the reader goes to the front of the queue. */
  function Read(s: Cache, p: nat): Cache
    requires p < |s.processes| && s.processes[p].phase.Holds? && s.processes[p].phase.bio < |s.bios|
  {
    var Holds(b, want) := s.processes[p].phase;
    if s.bios[b].updated then s
    else WithProcess(s, p, Reads(b, want), true).(bios := s.bios[b := s.bios[b].(queue := [p] + s.bios[b].queue)])
  }

  /** ide_read_complete, with what the drive has put into the buffer: the first of the queue is woken. */
  function Completed(s: Cache, b: nat, error: bool, data: seq<Byte>): Cache
    requires b < |s.bios| && s.bios[b].queue != [] && s.bios[b].queue[0] < |s.processes|
  {
    var bio := s.bios[b];
    Woken(s, bio.queue[0])
      .(bios := s.bios[b := bio.(updated := bio.updated || !error, buffer := data, queue := bio.queue[1..])])
  }

  /** The reader runs again, and returns from bio_read. */
  function ReadEnds(s: Cache, p: nat): Cache
    requires p < |s.processes| && s.processes[p].phase.Reads?
  {
    WithProcess(s, p, Holds(s.processes[p].phase.bio, s.processes[p].phase.want), false)
  }

  predicate CanRelease(s: Cache, p: nat) {
    && p < |s.processes| && s.processes[p].phase.Holds? && s.processes[p].phase.bio < |s.bios|
    && (s.anyone != [] ==> s.anyone[0] < |s.processes|)
    && var queue := s.bios[s.processes[p].phase.bio].queue; queue != [] ==> queue[0] < |s.processes|
  }

  /** bio_release and wake_up_sleep_process. */
  function Release(s: Cache, p: nat): Cache
    requires CanRelease(s, p)
  {
    var b := s.processes[p].phase.bio;
    var bio := s.bios[b];
    var free := WithProcess(s, p, Idle, false);
    if bio.queue != [] then
      Woken(free, bio.queue[0]).(bios := s.bios[b := bio.(reffed := false, queue := bio.queue[1..])])
    else
      var freed := free.(bios := s.bios[b := bio.(reffed := false)]);
      if s.anyone != [] then Woken(freed, s.anyone[0]).(anyone := s.anyone[1..]) else freed
  }

  /** A process that was woken, or whose read has ended, runs again. */
  function Resume(s: Cache, p: nat, room: bool): Cache
    requires p < |s.processes| && forall b :: b in s.recent ==> b < |s.bios|
    requires s.processes[p].phase.Waits? || s.processes[p].phase.Reads? ==> s.processes[p].phase.bio < |s.bios|
  {
    match s.processes[p].phase
    case Waits(b, want) => TakeOrSleep(s, p, b, want)
    case WaitsAny(want) => TakeAny(s, p, want, room)
    case Reads(b, want) => ReadEnds(s, p)
    case _ => s
  }

  // ----- what always holds

  /** The list has every buffer once. */
  ghost predicate Listed(s: Cache) {
    && Distinct(s.recent)
    && (forall b :: b in s.recent <==> 0 <= b < |s.bios|)
  }

  predicate Uses(q: Process, b: nat) {
    (q.phase.Waits? || q.phase.Holds? || q.phase.Reads?) && q.phase.bio == b
  }

  predicate Holder(q: Process, b: nat) {
    (q.phase.Holds? || q.phase.Reads?) && q.phase.bio == b
  }

  /** Asleep for this buffer. */
  predicate Sleeper(q: Process, b: nat) {
    q.asleep && (q.phase.Waits? || q.phase.Reads?) && q.phase.bio == b
  }

  predicate SleepsAny(q: Process) {
    q.asleep && q.phase.WaitsAny?
  }

  /** Processes use buffers that exist, and sleep only where they wait. */
  ghost predicate PhasesOk(s: Cache) {
    forall p :: 0 <= p < |s.processes| ==>
      var q := s.processes[p];
      && (q.asleep ==> q.phase.Waits? || q.phase.WaitsAny? || q.phase.Reads?)
      && (q.phase.Waits? || q.phase.Holds? || q.phase.Reads? ==> q.phase.bio < |s.bios|)
  }

  /** A queue has exactly those who sleep there, once each. */
  ghost predicate QueueOk(s: Cache, b: nat)
    requires b < |s.bios|
  {
    && Distinct(s.bios[b].queue)
    && (forall p: nat :: p in s.bios[b].queue <==> p < |s.processes| && Sleeper(s.processes[p], b))
  }

  ghost predicate QueuesOk(s: Cache) {
    && (forall b :: 0 <= b < |s.bios| ==> QueueOk(s, b))
    && Distinct(s.anyone)
    && (forall p: nat :: p in s.anyone <==> p < |s.processes| && SleepsAny(s.processes[p]))
  }

  /** A process that sleeps for its read to end is the first of the queue, and the buffer has not been filled. */
  ghost predicate ReaderFirst(s: Cache) {
    forall p, b ::
        0 <= p < |s.processes| && 0 <= b < |s.bios| && s.processes[p].phase.Reads? && Sleeper(s.processes[p], b) ==>
      s.bios[b].queue != [] && s.bios[b].queue[0] == p && !s.bios[b].updated
  }

  ghost predicate HasHolder(s: Cache, b: nat) {
    exists p :: 0 <= p < |s.processes| && Holder(s.processes[p], b)
  }

  /** A buffer is marked exactly if a process holds it, and then there is just one. */
  ghost predicate HeldOk(s: Cache) {
    && (forall p, b :: 0 <= p < |s.processes| && 0 <= b < |s.bios| && Holder(s.processes[p], b) ==> s.bios[b].reffed)
    && (forall b :: 0 <= b < |s.bios| && s.bios[b].reffed ==> HasHolder(s, b))
    && (forall p, q, b ::
        0 <= p < |s.processes| && 0 <= q < |s.processes| && Holder(s.processes[p], b) && Holder(s.processes[q], b) ==>
          p == q)
  }

  ghost predicate DataOk(s: Cache, disk: Disk) {
    forall b :: 0 <= b < |s.bios| && s.bios[b].updated ==> s.bios[b].buffer == disk(s.bios[b].block)
  }

  /** Somebody was woken for this buffer and has yet to look. */
  ghost predicate Retester(s: Cache, b: nat) {
    exists p :: 0 <= p < |s.processes| && s.processes[p].phase.Waits? && Uses(s.processes[p], b) &&
      !s.processes[p].asleep
  }

  ghost predicate AnyRetester(s: Cache) {
    exists p :: 0 <= p < |s.processes| && (s.processes[p].phase.Waits? || s.processes[p].phase.WaitsAny?) &&
      !s.processes[p].asleep
  }

  /** No wake-up is lost: while a process waits for a buffer, somebody holds it or is about to look again. */
  ghost predicate NoneLost(s: Cache) {
    forall b :: 0 <= b < |s.bios| && s.bios[b].queue != [] ==> s.bios[b].reffed || Retester(s, b)
  }

  ghost predicate SomeReffed(s: Cache) {
    exists b :: 0 <= b < |s.bios| && s.bios[b].reffed
  }

  /** While a process waits for any buffer at all, some buffer is held or somebody is about to look again. */
  ghost predicate AnyNotLost(s: Cache) {
    s.anyone != [] && s.bios != [] ==> SomeReffed(s) || AnyRetester(s)
  }

  ghost predicate Core(s: Cache, disk: Disk) {
    Listed(s) && PhasesOk(s) && QueuesOk(s) && ReaderFirst(s) && HeldOk(s) && DataOk(s, disk) && NoneLost(s)
  }

  ghost predicate Sound(s: Cache, disk: Disk) {
    Core(s, disk) && AnyNotLost(s)
  }
}
