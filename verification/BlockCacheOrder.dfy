/**
 Order in the block cache, over whole runs: the list of buffers is the order of their last use, and those who wait
 for any buffer are woken in the order in which they came.
 */
module BlockCacheOrder {
  import opened Bytes
  import opened IntrusiveList
  import opened BlockCache
  import opened BlockCacheMoves
  import opened BlockCacheRuns

  // ----- the last use of buffers

  /** The buffer that a process has taken in this step, or none. */
  function TakenIn(s: Cache, s': Cache, e: Event): seq<nat> {
    if (e.Getting? || e.Resuming?) && e.p < |s.processes| && e.p < |s'.processes|
       && !s.processes[e.p].phase.Reads? && !s.processes[e.p].phase.Holds? && s'.processes[e.p].phase.Holds?
    then [s'.processes[e.p].phase.bio]
    else []
  }

  /** The buffers taken in a run, in order. */
  ghost function Uses(s: Cache, disk: Disk, events: seq<Event>): seq<nat>
    requires Sound(s, disk) && Possible(s, disk, events)
    decreases |events|
  {
    if events == [] then []
    else
      StepSound(s, disk, events[0]);
      var s' := Step(s, disk, events[0]);
      TakenIn(s, s', events[0]) + Uses(s', disk, events[1..])
  }

  function LastUse(log: seq<nat>, b: nat): (i: int)
    ensures -1 <= i < |log|
  {
    if log == [] then -1 else if log[|log| - 1] == b then |log| - 1 else LastUse(log[..|log| - 1], b)
  }

  /** Each has been used, and later than those behind it. */
  ghost predicate LatestFirst(recent: seq<nat>, log: seq<nat>) {
    && (forall i :: 0 <= i < |recent| ==> LastUse(log, recent[i]) >= 0)
    && forall i, j :: 0 <= i < j < |recent| ==> LastUse(log, recent[i]) > LastUse(log, recent[j])
  }

  lemma {:induction false} WithoutAbsent(s: seq<nat>, n: nat)
    requires n !in s
    ensures Without(s, n) == s
  {
    if s != [] {
      WithoutAbsent(s[1..], n);
    }
  }

  lemma {:induction false} WithoutOrder(s: seq<nat>, n: nat, log: seq<nat>)
    requires LatestFirst(s, log) && Distinct(s)
    ensures LatestFirst(Without(s, n), log)
  {
    if s != [] && s[0] != n {
      DistinctTail(s);
      WithoutOrder(s[1..], n, log);
      WithoutMembers(s[1..], n);
      FrontOrder(s, Without(s[1..], n), log);
    }
  }

  lemma FrontOrder(s: seq<nat>, rest: seq<nat>, log: seq<nat>)
    requires s != [] && LatestFirst(s, log) && LatestFirst(rest, log) && forall n :: n in rest ==> n in s[1..]
    ensures LatestFirst([s[0]] + rest, log)
  {
    forall j | 0 <= j < |rest|
      ensures LastUse(log, s[0]) > LastUse(log, rest[j])
    {
      assert rest[j] in s[1..];
    }
  }

  lemma LastOfMore(log: seq<nat>, b: nat, c: nat)
    ensures LastUse(log + [b], c) == if c == b then |log| else LastUse(log, c)
  {
    assert (log + [b])[..|log|] == log;
  }

  /** A buffer that is taken goes to the front. */
  lemma TakenFirst(recent: seq<nat>, b: nat, log: seq<nat>)
    requires LatestFirst(recent, log) && Distinct(recent)
    ensures LatestFirst([b] + Without(recent, b), log + [b])
  {
    var rest := Without(recent, b);
    WithoutOrder(recent, b, log);
    WithoutMembers(recent, b);
    LastOfMore(log, b, b);
    forall i | 0 <= i < |rest|
      ensures LastUse(log + [b], rest[i]) == LastUse(log, rest[i])
    {
      assert rest[i] in rest;
      LastOfMore(log, b, rest[i]);
    }
  }

  /** The list with what was taken in front. */
  function Fronted(recent: seq<nat>, taken: seq<nat>): seq<nat> {
    if taken == [] then recent else taken + Without(recent, taken[0])
  }

  /** If the process holds a buffer now, this one is in front. */
  predicate FrontIsHeld(s: Cache, s': Cache, p: nat) {
    p < |s'.processes|
    && s'.recent == if s'.processes[p].phase.Holds? then Fronted(s.recent, [s'.processes[p].phase.bio]) else s.recent
  }

  lemma AnyRecent(s: Cache, p: nat, want: Want, room: bool)
    requires Listed(s) && p < |s.processes|
    ensures FrontIsHeld(s, TakeAny(s, p, want, room), p)
  {
    if CanGrow(s, room) {
      WithoutAbsent(s.recent, |s.bios|);
    }
  }

  lemma OneRecent(s: Cache, p: nat, b: nat, want: Want)
    requires p < |s.processes| && b < |s.bios|
    ensures FrontIsHeld(s, TakeOrSleep(s, p, b, want), p)
  {
  }

  /** A step moves to the front what it takes, and nothing else. */
  lemma StepRecent(s: Cache, disk: Disk, e: Event)
    requires Sound(s, disk) && Enabled(s, disk, e)
    ensures Step(s, disk, e).recent == Fronted(s.recent, TakenIn(s, Step(s, disk, e), e))
  {
    match e
    case Getting(p, want, room) =>
      if Find(s.bios, s.recent, want.Target()) == -1 {
        AnyRecent(s, p, want, room);
      } else {
        OneRecent(s, p, Find(s.bios, s.recent, want.Target()), want);
      }
    case Resuming(p, room) =>
      match s.processes[p].phase {
        case Waits(b, want) => OneRecent(s, p, b, want);
        case WaitsAny(want) => AnyRecent(s, p, want, room);
        case Reads(_, _) =>
      }
    case Completing(b, _, _) => FirstReads(s, b);
    case Releasing(p) => ReleasePossible(s, p);
    case Reading(_) =>
  }

  ghost function Ordered(log: seq<nat>): iset<seq<nat>> {
    iset recent: seq<nat> | LatestFirst(recent, log)
  }

  lemma StepOrder(s: Cache, disk: Disk, e: Event, log: seq<nat>)
    requires Sound(s, disk) && Enabled(s, disk, e) && s.recent in Ordered(log)
    ensures Step(s, disk, e).recent in Ordered(log + TakenIn(s, Step(s, disk, e), e))
  {
    StepRecent(s, disk, e);
    var taken := TakenIn(s, Step(s, disk, e), e);
    if taken != [] {
      TakenFirst(s.recent, taken[0], log);
    } else {
      assert log + taken == log;
    }
  }

  lemma Regroup(a: seq<nat>, b: seq<nat>, c: seq<nat>)
    ensures a + b + c == a + (b + c)
  {
  }

  /** The list is always in the order of last use. */
  lemma {:induction false} OrderAfter(s: Cache, disk: Disk, events: seq<Event>, log: seq<nat>)
    requires Sound(s, disk) && Possible(s, disk, events) && s.recent in Ordered(log)
    ensures After(s, disk, events).recent in Ordered(log + Uses(s, disk, events))
    decreases |events|
  {
    if events == [] {
      assert log + Uses(s, disk, events) == log;
    } else {
      StepSound(s, disk, events[0]);
      StepOrder(s, disk, events[0], log);
      var s' := Step(s, disk, events[0]);
      var taken := TakenIn(s, s', events[0]);
      OrderAfter(s', disk, events[1..], log + taken);
      Regroup(log, taken, Uses(s', disk, events[1..]));
    }
  }

  /** In every run, from the start. */
  lemma RecentIsLastUse(n: nat, disk: Disk, events: seq<Event>)
    requires Sound(Empty(n), disk) && Possible(Empty(n), disk, events)
    ensures LatestFirst(After(Empty(n), disk, events).recent, Uses(Empty(n), disk, events))
  {
    OrderAfter(Empty(n), disk, events, []);
    assert [] + Uses(Empty(n), disk, events) == Uses(Empty(n), disk, events);
  }

  /** So the buffer that is given to another block is, of those nobody holds, the least recently used. */
  lemma {:induction false} LeastRecentlyUsed(bios: seq<Bio>, recent: seq<nat>, log: seq<nat>)
    requires LatestFirst(recent, log) && FindUnused(bios, recent) != -1
    ensures var b := FindUnused(bios, recent);
            forall c :: c in recent && c < |bios| && !bios[c].reffed ==> LastUse(log, b) <= LastUse(log, c)
  {
    var n := |recent| - 1;
    if recent[n] >= |bios| || bios[recent[n]].reffed {
      LeastRecentlyUsed(bios, recent[..n], log);
      assert recent == recent[..n] + [recent[n]];
    }
  }

  // ----- those who wait

  /** What a process waits for: any buffer, or a certain one. */
  datatype Place = Any | On(b: nat)

  predicate WaitsAt(q: Process, w: Place) {
    q.asleep && if w.Any? then q.phase.WaitsAny? else q.phase.Waits? && q.phase.bio == w.b
  }

  /** Those who wait, the first to be woken in front; a process that reads the buffer is not one of them. */
  function Line(s: Cache, w: Place): seq<nat> {
    match w
    case Any => s.anyone
    case On(b) =>
      if b >= |s.bios| then []
      else
        var q := s.bios[b].queue;
        if q != [] && q[0] < |s.processes| && s.processes[q[0]].phase.Reads? then q[1..] else q
  }

  /** They fall asleep in the step. */
  predicate Arrives(s: Cache, s': Cache, w: Place, q: nat) {
    q < |s.processes| && q < |s'.processes| && !WaitsAt(s.processes[q], w) && WaitsAt(s'.processes[q], w)
  }

  /** They are woken in the step. */
  predicate Wakes(s: Cache, s': Cache, w: Place, q: nat) {
    q < |s.processes| && q < |s'.processes| && WaitsAt(s.processes[q], w) && !WaitsAt(s'.processes[q], w)
  }

  /** The process that falls asleep in the step, if one does. */
  ghost function ArrivedIn(s: Cache, s': Cache, w: Place): (r: seq<nat>)
    ensures if r == [] then forall q: nat :: !Arrives(s, s', w, q) else |r| == 1 && Arrives(s, s', w, r[0])
  {
    if q: nat :| Arrives(s, s', w, q) then [q] else []
  }

  /** The process that is woken, if one is. */
  ghost function WokenIn(s: Cache, s': Cache, w: Place): (r: seq<nat>)
    ensures if r == [] then forall q: nat :: !Wakes(s, s', w, q) else |r| == 1 && Wakes(s, s', w, r[0])
  {
    if q: nat :| Wakes(s, s', w, q) then [q] else []
  }

  /** All of a run. */
  ghost function Arrivals(s: Cache, disk: Disk, events: seq<Event>, w: Place): seq<nat>
    requires Sound(s, disk) && Possible(s, disk, events)
    decreases |events|
  {
    if events == [] then []
    else
      StepSound(s, disk, events[0]);
      var s' := Step(s, disk, events[0]);
      ArrivedIn(s, s', w) + Arrivals(s', disk, events[1..], w)
  }

  ghost function Wakings(s: Cache, disk: Disk, events: seq<Event>, w: Place): seq<nat>
    requires Sound(s, disk) && Possible(s, disk, events)
    decreases |events|
  {
    if events == [] then []
    else
      StepSound(s, disk, events[0]);
      var s' := Step(s, disk, events[0]);
      WokenIn(s, s', w) + Wakings(s', disk, events[1..], w)
  }

  /** One comes behind all others, or the first goes, or nothing happens to the line. */
  ghost predicate LineStep(q: seq<nat>, q': seq<nat>) {
    q' == q || (q != [] && q' == q[1..]) || exists p: nat :: q' == q + [p]
  }

  // ----- what a step does to a line

  lemma AnyTaken(s: Cache, p: nat, want: Want, room: bool, w: Place)
    requires QueuesOk(s) && ReaderFirst(s) && Listed(s) && FreeOfAll(s, p)
    ensures LineStep(Line(s, w), Line(TakeAny(s, p, want, room), w))
  {
  }

  lemma TakeLine(s: Cache, p: nat, b: nat, want: Want, w: Place)
    requires QueuesOk(s) && Free(s, p, b) && b < |s.bios|
    ensures Line(Take(s, p, b, want), w) == Line(s, w)
  {
    if w.On? && w.b < |s.bios| && s.bios[w.b].queue != [] {
      HeadSleeps(s, w);
    }
  }

  lemma SleepLine(s: Cache, p: nat, b: nat, want: Want, w: Place)
    requires QueuesOk(s) && Free(s, p, b) && b < |s.bios|
    ensures Line(SleepOn(s, p, b, want), w) == if w == On(b) then Line(s, w) + [p] else Line(s, w)
  {
    if w.On? && w.b < |s.bios| && s.bios[w.b].queue != [] {
      HeadSleeps(s, w);
    }
  }

  lemma OneTaken(s: Cache, p: nat, b: nat, want: Want, w: Place)
    requires QueuesOk(s) && Free(s, p, b) && b < |s.bios|
    ensures LineStep(Line(s, w), Line(TakeOrSleep(s, p, b, want), w))
  {
    if s.bios[b].reffed {
      SleepLine(s, p, b, want, w);
    } else {
      TakeLine(s, p, b, want, w);
    }
  }

  /** Whose turn it is on a buffer: it sleeps there, and reads it only if nobody holds the buffer otherwise. */
  lemma HeadSleeps(s: Cache, w: Place)
    requires QueuesOk(s) && w.On? && w.b < |s.bios| && s.bios[w.b].queue != []
    ensures var h := s.bios[w.b].queue[0]; h < |s.processes| && Sleeper(s.processes[h], w.b)
  {
    assert QueueOk(s, w.b) && s.bios[w.b].queue[0] in s.bios[w.b].queue;
  }

  lemma NoReader(s: Cache, p: nat, w: Place)
    requires QueuesOk(s) && HeldOk(s) && Holding(s, p) && w == On(s.processes[p].phase.bio)
    ensures Line(s, w) == s.bios[w.b].queue
  {
    if s.bios[w.b].queue != [] {
      HeadSleeps(s, w);
      var h := s.bios[w.b].queue[0];
      assert Holder(s.processes[p], w.b) && (s.processes[h].phase.Reads? ==> Holder(s.processes[h], w.b));
    }
  }

  lemma ReadKeeps(s: Cache, p: nat, w: Place)
    requires QueuesOk(s) && PhasesOk(s) && HeldOk(s) && Holding(s, p)
    ensures Line(Read(s, p), w) == Line(s, w)
  {
    if w.On? && w.b < |s.bios| {
      if w.b == s.processes[p].phase.bio {
        NoReader(s, p, w);
        assert ([p] + s.bios[w.b].queue)[1..] == s.bios[w.b].queue;
      } else if s.bios[w.b].queue != [] {
        HeadSleeps(s, w);
      }
    }
  }

  lemma CompletedKeeps(s: Cache, b: nat, error: bool, data: seq<Byte>, w: Place)
    requires QueuesOk(s) && ReaderFirst(s) && b < |s.bios|
    requires s.bios[b].queue != [] && s.bios[b].queue[0] < |s.processes| && ReadBy(s, b, s.bios[b].queue[0])
    ensures Line(Completed(s, b, error, data), w) == Line(s, w)
  {
    var queue := s.bios[b].queue;
    if w == On(b) && |queue| > 1 {
      assert QueueOk(s, b);
      DistinctTail(queue);
      assert queue[1] in queue && queue[1] in queue[1..];
    }
  }

  lemma ReadEndsKeeps(s: Cache, p: nat, w: Place)
    requires QueuesOk(s) && PhasesOk(s) && Returning(s, p)
    ensures Line(ReadEnds(s, p), w) == Line(s, w)
  {
    if w.On? && w.b < |s.bios| && s.bios[w.b].queue != [] {
      HeadSleeps(s, w);
    }
  }

  lemma ReleaseLine(s: Cache, p: nat, w: Place)
    requires QueuesOk(s) && PhasesOk(s) && ReaderFirst(s) && HeldOk(s) && Holding(s, p) && CanRelease(s, p)
    ensures LineStep(Line(s, w), Line(Release(s, p), w))
  {
    var b := s.processes[p].phase.bio;
    if w.On? && w.b < |s.bios| && s.bios[w.b].queue != [] {
      var queue := s.bios[w.b].queue;
      HeadSleeps(s, w);
      if w.b == b {
        NoReader(s, p, w);
        if |queue| > 1 {
          assert QueueOk(s, b);
          DistinctTail(queue);
          assert queue[1] in queue && queue[1] in queue[1..];
        }
      }
    }
  }

  lemma StepLine(s: Cache, disk: Disk, e: Event, w: Place)
    requires Sound(s, disk) && Enabled(s, disk, e)
    ensures LineStep(Line(s, w), Line(Step(s, disk, e), w))
  {
    match e
    case Getting(p, want, room) =>
      if Find(s.bios, s.recent, want.Target()) == -1 {
        AnyTaken(s, p, want, room, w);
      } else {
        OneTaken(s, p, Find(s.bios, s.recent, want.Target()), want, w);
      }
    case Resuming(p, room) =>
      match s.processes[p].phase {
        case Waits(b, want) => OneTaken(s, p, b, want, w);
        case WaitsAny(want) => AnyTaken(s, p, want, room, w);
        case Reads(b, want) => ReadEndsKeeps(s, p, w);
      }
    case Reading(p) => ReadKeeps(s, p, w);
    case Completing(b, error, data) =>
      FirstReads(s, b);
      CompletedKeeps(s, b, error, data, w);
    case Releasing(p) =>
      ReleasePossible(s, p);
      ReleaseLine(s, p, w);
  }

  // ----- who arrives, and who is woken

  lemma InLine(s: Cache, w: Place, q: nat)
    requires QueuesOk(s) && ReaderFirst(s) && PhasesOk(s)
    ensures q in Line(s, w) <==> q < |s.processes| && WaitsAt(s.processes[q], w)
    ensures Distinct(Line(s, w))
  {
    if w.On? && w.b < |s.bios| {
      assert QueueOk(s, w.b);
      if s.bios[w.b].queue != [] {
        HeadSleeps(s, w);
        DistinctTail(s.bios[w.b].queue);
      }
    }
  }

  lemma Members(s: Cache, s': Cache, disk: Disk, w: Place, q: nat)
    requires Sound(s, disk) && Sound(s', disk) && |s.processes| == |s'.processes|
    ensures Arrives(s, s', w, q) <==> q !in Line(s, w) && q in Line(s', w)
    ensures Wakes(s, s', w, q) <==> q in Line(s, w) && q !in Line(s', w)
    ensures Distinct(Line(s, w)) && Distinct(Line(s', w))
  {
    InLine(s, w, q);
    InLine(s', w, q);
  }

  lemma NobodyArrives(s: Cache, s': Cache, disk: Disk, w: Place)
    requires Sound(s, disk) && Sound(s', disk) && |s.processes| == |s'.processes|
    requires forall q: nat :: q in Line(s', w) ==> q in Line(s, w)
    ensures ArrivedIn(s, s', w) == []
  {
    forall q: nat
      ensures !Arrives(s, s', w, q)
    {
      Members(s, s', disk, w, q);
    }
  }

  lemma NobodyWakes(s: Cache, s': Cache, disk: Disk, w: Place)
    requires Sound(s, disk) && Sound(s', disk) && |s.processes| == |s'.processes|
    requires forall q: nat :: q in Line(s, w) ==> q in Line(s', w)
    ensures WokenIn(s, s', w) == []
  {
    forall q: nat
      ensures !Wakes(s, s', w, q)
    {
      Members(s, s', disk, w, q);
    }
  }

  lemma LastAlone(q: seq<nat>, p: nat)
    requires Distinct(q + [p])
    ensures p !in q
  {
    forall i | 0 <= i < |q|
      ensures q[i] != p
    {
      assert (q + [p])[i] == q[i] && (q + [p])[|q|] == p;
    }
  }

  lemma OneArrives(s: Cache, s': Cache, disk: Disk, w: Place, p: nat)
    requires Sound(s, disk) && Sound(s', disk) && |s.processes| == |s'.processes|
    requires Line(s', w) == Line(s, w) + [p]
    ensures ArrivedIn(s, s', w) == [p]
  {
    Members(s, s', disk, w, p);
    LastAlone(Line(s, w), p);
    assert Arrives(s, s', w, p);
    var r := ArrivedIn(s, s', w);
    Members(s, s', disk, w, r[0]);
  }

  lemma OneWakes(s: Cache, s': Cache, disk: Disk, w: Place)
    requires Sound(s, disk) && Sound(s', disk) && |s.processes| == |s'.processes|
    requires Line(s, w) != [] && Line(s', w) == Line(s, w)[1..]
    ensures WokenIn(s, s', w) == [Line(s, w)[0]]
  {
    var first := Line(s, w)[0];
    Members(s, s', disk, w, first);
    DistinctTail(Line(s, w));
    assert Wakes(s, s', w, first);
    var r := WokenIn(s, s', w);
    Members(s, s', disk, w, r[0]);
  }

  /** What the line gains arrives, and what it loses is woken. */
  lemma LineChange(s: Cache, s': Cache, disk: Disk, w: Place)
    requires Sound(s, disk) && Sound(s', disk) && |s.processes| == |s'.processes|
    requires LineStep(Line(s, w), Line(s', w))
    ensures Line(s, w) + ArrivedIn(s, s', w) == WokenIn(s, s', w) + Line(s', w)
  {
    if Line(s', w) == Line(s, w) {
      NobodyArrives(s, s', disk, w);
      NobodyWakes(s, s', disk, w);
    } else if Line(s, w) != [] && Line(s', w) == Line(s, w)[1..] {
      NobodyArrives(s, s', disk, w);
      OneWakes(s, s', disk, w);
    } else {
      var p: nat :| Line(s', w) == Line(s, w) + [p];
      OneArrives(s, s', disk, w, p);
      NobodyWakes(s, s', disk, w);
    }
  }

  lemma StepChange(s: Cache, disk: Disk, e: Event, w: Place)
    requires Sound(s, disk) && Enabled(s, disk, e)
    ensures var s' := Step(s, disk, e);
            Line(s, w) + ArrivedIn(s, s', w) == WokenIn(s, s', w) + Line(s', w)
  {
    StepSound(s, disk, e);
    StepLine(s, disk, e, w);
    SameProcesses(s, disk, e);
    LineChange(s, Step(s, disk, e), disk, w);
  }

  lemma SameProcesses(s: Cache, disk: Disk, e: Event)
    requires Sound(s, disk) && Enabled(s, disk, e)
    ensures |Step(s, disk, e).processes| == |s.processes|
  {
    match e
    case Completing(b, _, _) => FirstReads(s, b);
    case Releasing(p) => ReleasePossible(s, p);
    case _ =>
  }

  /** Those in the line and those who come later are woken one after the other, as far as the run goes. */
  lemma {:induction false} LineAfter(s: Cache, disk: Disk, events: seq<Event>, w: Place)
    requires Sound(s, disk) && Possible(s, disk, events)
    ensures Line(s, w) + Arrivals(s, disk, events, w)
            == Wakings(s, disk, events, w) + Line(After(s, disk, events), w)
    decreases |events|
  {
    if events != [] {
      StepSound(s, disk, events[0]);
      StepChange(s, disk, events[0], w);
      var s' := Step(s, disk, events[0]);
      LineAfter(s', disk, events[1..], w);
      Interleaved(Line(s, w), ArrivedIn(s, s', w), WokenIn(s, s', w), Line(s', w),
                  Arrivals(s', disk, events[1..], w), Wakings(s', disk, events[1..], w),
                  Line(After(s', disk, events[1..]), w));
    }
  }

  lemma Interleaved(q: seq<nat>, a: seq<nat>, w: seq<nat>, q': seq<nat>, as': seq<nat>, ws: seq<nat>, r: seq<nat>)
    requires q + a == w + q' && q' + as' == ws + r
    ensures q + (a + as') == (w + ws) + r
  {
    assert q + (a + as') == (q + a) + as';
    assert (w + q') + as' == w + (q' + as');
  }

  /** In every run those who wait for one buffer, or for any, are woken in the order in which they came. */
  lemma WokenInOrder(n: nat, disk: Disk, events: seq<Event>, w: Place)
    requires Sound(Empty(n), disk) && Possible(Empty(n), disk, events)
    ensures Arrivals(Empty(n), disk, events, w)
            == Wakings(Empty(n), disk, events, w) + Line(After(Empty(n), disk, events), w)
  {
    LineAfter(Empty(n), disk, events, w);
    assert Line(Empty(n), w) + Arrivals(Empty(n), disk, events, w) == Arrivals(Empty(n), disk, events, w);
  }
}
