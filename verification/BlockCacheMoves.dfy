/** Every move of the block cache keeps what always holds. */
module BlockCacheMoves {
  import opened Bytes
  import opened IntrusiveList
  import opened BlockCache

  // ----- queues

  lemma DistinctMore(q: seq<nat>, n: nat)
    requires Distinct(q) && n !in q
    ensures Distinct(q + [n]) && Distinct([n] + q)
  {
  }

  lemma {:induction false} WithoutMembers(s: seq<nat>, n: nat)
    requires Distinct(s)
    ensures Distinct(Without(s, n)) && forall m :: m in Without(s, n) <==> m in s && m != n
  {
    if s != [] {
      DistinctTail(s);
      if s[0] != n {
        WithoutMembers(s[1..], n);
        DistinctMore(Without(s[1..], n), s[0]);
      }
    }
  }

  /** Only these two processes have changed. */
  ghost predicate OthersSame(s: Cache, s': Cache, p: nat, q: nat) {
    && |s'.processes| == |s.processes|
    && forall r {:trigger s'.processes[r]} :: 0 <= r < |s.processes| && r != p && r != q ==>
       s'.processes[r] == s.processes[r]
  }

  lemma QueueMeans(s: Cache, b: nat, p: nat)
    requires QueuesOk(s) && b < |s.bios|
    ensures Distinct(s.bios[b].queue)
    ensures p in s.bios[b].queue <==> p < |s.processes| && Sleeper(s.processes[p], b)
  {
    assert QueueOk(s, b);
  }

  /** A queue that nobody has joined or left. */
  lemma QueueSame(s: Cache, s': Cache, b: nat, p: nat, q: nat)
    requires QueuesOk(s) && OthersSame(s, s', p, q) && b < |s.bios| && b < |s'.bios| &&
             s'.bios[b].queue == s.bios[b].queue
    requires p < |s.processes| && q < |s.processes|
    requires Sleeper(s.processes[p], b) == Sleeper(s'.processes[p], b)
    requires Sleeper(s.processes[q], b) == Sleeper(s'.processes[q], b)
    ensures QueueOk(s', b)
  {
    assert QueueOk(s, b);
    forall r: nat
      ensures r in s'.bios[b].queue <==> r < |s'.processes| && Sleeper(s'.processes[r], b)
    {
      QueueMeans(s, b, r);
    }
  }

  lemma AnyoneSame(s: Cache, s': Cache, p: nat, q: nat)
    requires QueuesOk(s) && OthersSame(s, s', p, q) && s'.anyone == s.anyone && p < |s.processes| && q < |s.processes|
    requires SleepsAny(s.processes[p]) == SleepsAny(s'.processes[p])
    requires SleepsAny(s.processes[q]) == SleepsAny(s'.processes[q])
    requires forall b :: 0 <= b < |s'.bios| ==> QueueOk(s', b)
    ensures QueuesOk(s')
  {
    forall r: nat
      ensures r in s'.anyone <==> r < |s'.processes| && SleepsAny(s'.processes[r])
    {
      assert r in s.anyone <==> r < |s.processes| && SleepsAny(s.processes[r]);
    }
  }

  // ----- holders and retesters

  lemma HolderKept(s: Cache, s': Cache, b: nat, p: nat, q: nat)
    requires OthersSame(s, s', p, q) && HasHolder(s, b) && p < |s.processes| && q < |s.processes|
    requires Holder(s.processes[p], b) ==> Holder(s'.processes[p], b)
    requires Holder(s.processes[q], b) ==> Holder(s'.processes[q], b)
    ensures HasHolder(s', b)
  {
    var r :| 0 <= r < |s.processes| && Holder(s.processes[r], b);
    assert Holder(s'.processes[r], b);
  }

  lemma RetesterKept(s: Cache, s': Cache, b: nat, p: nat, q: nat)
    requires OthersSame(s, s', p, q) && Retester(s, b) && p < |s.processes| && q < |s.processes|
    requires forall r ::
      (r == p || r == q) && s.processes[r].phase.Waits? && Uses(s.processes[r], b) && !s.processes[r].asleep ==>
                           s'.processes[r].phase.Waits? && Uses(s'.processes[r], b) && !s'.processes[r].asleep
    ensures Retester(s', b)
  {
    var r :| 0 <= r < |s.processes| && s.processes[r].phase.Waits? && Uses(s.processes[r], b) && !s.processes[r].asleep;
    assert s'.processes[r].phase.Waits? && Uses(s'.processes[r], b) && !s'.processes[r].asleep;
  }

  // ----- Take

  /** Outside, or about to look again at this buffer. */
  predicate Free(s: Cache, p: nat, b: nat) {
    && p < |s.processes| && !s.processes[p].asleep
    && (s.processes[p].phase.Idle? || s.processes[p].phase.WaitsAny? ||
        (s.processes[p].phase.Waits? && s.processes[p].phase.bio == b))
  }

  predicate CanTake(s: Cache, p: nat, b: nat) {
    Free(s, p, b) && b < |s.bios| && !s.bios[b].reffed
  }

  lemma TakeListed(s: Cache, p: nat, b: nat, want: Want)
    requires Listed(s) && CanTake(s, p, b)
    ensures Listed(Take(s, p, b, want))
  {
    WithoutMembers(s.recent, b);
    DistinctMore(Without(s.recent, b), b);
  }

  lemma TakeQueues(s: Cache, p: nat, b: nat, want: Want)
    requires QueuesOk(s) && CanTake(s, p, b)
    ensures QueuesOk(Take(s, p, b, want))
  {
    var s' := Take(s, p, b, want);
    forall c | 0 <= c < |s'.bios|
      ensures QueueOk(s', c)
    {
      QueueSame(s, s', c, p, p);
    }
    AnyoneSame(s, s', p, p);
  }

  lemma TakeHeld(s: Cache, p: nat, b: nat, want: Want)
    requires HeldOk(s) && CanTake(s, p, b)
    ensures HeldOk(Take(s, p, b, want))
  {
    var s' := Take(s, p, b, want);
    assert Holder(s'.processes[p], b);
    forall c | 0 <= c < |s'.bios| && s'.bios[c].reffed
      ensures HasHolder(s', c)
    {
      if c != b {
        HolderKept(s, s', c, p, p);
      }
    }
  }

  lemma TakeNoneLost(s: Cache, p: nat, b: nat, want: Want)
    requires NoneLost(s) && CanTake(s, p, b)
    ensures NoneLost(Take(s, p, b, want))
  {
    var s' := Take(s, p, b, want);
    forall c | 0 <= c < |s'.bios| && s'.bios[c].queue != []
      ensures s'.bios[c].reffed || Retester(s', c)
    {
      if c != b && !s.bios[c].reffed {
        RetesterKept(s, s', c, p, p);
      }
    }
  }

  lemma TakeSound(s: Cache, disk: Disk, p: nat, b: nat, want: Want)
    requires Core(s, disk) && CanTake(s, p, b)
    ensures Sound(Take(s, p, b, want), disk)
  {
    TakeListed(s, p, b, want);
    TakeQueues(s, p, b, want);
    TakeHeld(s, p, b, want);
    TakeNoneLost(s, p, b, want);
    assert Take(s, p, b, want).bios[b].reffed;
  }

  // ----- SleepOn

  predicate MustSleep(s: Cache, p: nat, b: nat) {
    Free(s, p, b) && b < |s.bios| && s.bios[b].reffed
  }

  lemma SleepOnQueues(s: Cache, p: nat, b: nat, want: Want)
    requires QueuesOk(s) && MustSleep(s, p, b)
    ensures QueuesOk(SleepOn(s, p, b, want))
  {
    var s' := SleepOn(s, p, b, want);
    forall c | 0 <= c < |s'.bios|
      ensures QueueOk(s', c)
    {
      if c != b {
        QueueSame(s, s', c, p, p);
      } else {
        QueueMeans(s, b, p);
        DistinctMore(s.bios[b].queue, p);
        forall r: nat
          ensures r in s'.bios[b].queue <==> r < |s'.processes| && Sleeper(s'.processes[r], b)
        {
          QueueMeans(s, b, r);
        }
      }
    }
    AnyoneSame(s, s', p, p);
  }

  lemma SleepOnHeld(s: Cache, p: nat, b: nat, want: Want)
    requires HeldOk(s) && MustSleep(s, p, b)
    ensures HeldOk(SleepOn(s, p, b, want))
  {
    var s' := SleepOn(s, p, b, want);
    forall c | 0 <= c < |s'.bios| && s'.bios[c].reffed
      ensures HasHolder(s', c)
    {
      HolderKept(s, s', c, p, p);
    }
  }

  lemma SleepOnNoneLost(s: Cache, p: nat, b: nat, want: Want)
    requires NoneLost(s) && MustSleep(s, p, b)
    ensures NoneLost(SleepOn(s, p, b, want))
  {
    var s' := SleepOn(s, p, b, want);
    forall c | 0 <= c < |s'.bios| && s'.bios[c].queue != []
      ensures s'.bios[c].reffed || Retester(s', c)
    {
      if c != b && !s.bios[c].reffed {
        RetesterKept(s, s', c, p, p);
      }
    }
  }

  lemma SleepOnFirst(s: Cache, p: nat, b: nat, want: Want)
    requires ReaderFirst(s) && MustSleep(s, p, b)
    ensures ReaderFirst(SleepOn(s, p, b, want))
  {
  }

  lemma SleepOnSound(s: Cache, disk: Disk, p: nat, b: nat, want: Want)
    requires Core(s, disk) && MustSleep(s, p, b)
    ensures Sound(SleepOn(s, p, b, want), disk)
  {
    SleepOnQueues(s, p, b, want);
    SleepOnHeld(s, p, b, want);
    SleepOnNoneLost(s, p, b, want);
    SleepOnFirst(s, p, b, want);
    assert SleepOn(s, p, b, want).bios[b].reffed;
  }

  // ----- SleepAny

  /** Outside, or about to look again for any buffer. */
  predicate FreeOfAll(s: Cache, p: nat) {
    p < |s.processes| && !s.processes[p].asleep && (s.processes[p].phase.Idle? || s.processes[p].phase.WaitsAny?)
  }

  lemma SleepAnyQueues(s: Cache, p: nat, want: Want)
    requires QueuesOk(s) && FreeOfAll(s, p)
    ensures QueuesOk(SleepAny(s, p, want))
  {
    var s' := SleepAny(s, p, want);
    forall c | 0 <= c < |s'.bios|
      ensures QueueOk(s', c)
    {
      QueueSame(s, s', c, p, p);
    }
    assert p !in s.anyone;
    DistinctMore(s.anyone, p);
    forall r: nat
      ensures r in s'.anyone <==> r < |s'.processes| && SleepsAny(s'.processes[r])
    {
      assert r in s.anyone <==> r < |s.processes| && SleepsAny(s.processes[r]);
    }
  }

  lemma SleepAnyHeld(s: Cache, p: nat, want: Want)
    requires HeldOk(s) && FreeOfAll(s, p)
    ensures HeldOk(SleepAny(s, p, want))
  {
    var s' := SleepAny(s, p, want);
    forall c | 0 <= c < |s'.bios| && s'.bios[c].reffed
      ensures HasHolder(s', c)
    {
      HolderKept(s, s', c, p, p);
    }
  }

  lemma SleepAnyNoneLost(s: Cache, p: nat, want: Want)
    requires NoneLost(s) && FreeOfAll(s, p)
    ensures NoneLost(SleepAny(s, p, want))
  {
    var s' := SleepAny(s, p, want);
    forall c | 0 <= c < |s'.bios| && s'.bios[c].queue != []
      ensures s'.bios[c].reffed || Retester(s', c)
    {
      if !s.bios[c].reffed {
        RetesterKept(s, s', c, p, p);
      }
    }
  }

  lemma SleepAnySound(s: Cache, disk: Disk, p: nat, want: Want)
    requires Core(s, disk) && FreeOfAll(s, p) && forall b :: 0 <= b < |s.bios| ==> s.bios[b].reffed
    ensures Sound(SleepAny(s, p, want), disk)
  {
    SleepAnyQueues(s, p, want);
    SleepAnyHeld(s, p, want);
    SleepAnyNoneLost(s, p, want);
    var s' := SleepAny(s, p, want);
    assert s'.bios != [] ==> s'.bios[0].reffed;
  }

  // ----- Grown and Reused

  lemma GrownListed(s: Cache, block: Block)
    requires Listed(s)
    ensures Listed(Grown(s, block))
  {
    DistinctMore(s.recent, |s.bios|);
  }

  lemma GrownQueues(s: Cache, block: Block)
    requires QueuesOk(s) && PhasesOk(s)
    ensures QueuesOk(Grown(s, block))
  {
    var s' := Grown(s, block);
    forall c | 0 <= c < |s'.bios|
      ensures QueueOk(s', c)
    {
      if c < |s.bios| {
        assert QueueOk(s, c);
      }
    }
  }

  lemma GrownHeld(s: Cache, block: Block)
    requires HeldOk(s) && PhasesOk(s)
    ensures HeldOk(Grown(s, block))
  {
    var s' := Grown(s, block);
    forall c | 0 <= c < |s'.bios| && s'.bios[c].reffed
      ensures HasHolder(s', c)
    {
      assert HasHolder(s, c);
    }
  }

  lemma GrownNoneLost(s: Cache, block: Block)
    requires NoneLost(s)
    ensures NoneLost(Grown(s, block))
  {
    var s' := Grown(s, block);
    forall c | 0 <= c < |s'.bios| && s'.bios[c].queue != []
      ensures s'.bios[c].reffed || Retester(s', c)
    {
      assert Retester(s, c) ==> Retester(s', c);
    }
  }

  lemma GrownCore(s: Cache, disk: Disk, block: Block)
    requires Core(s, disk)
    ensures Core(Grown(s, block), disk)
  {
    GrownListed(s, block);
    GrownQueues(s, block);
    GrownHeld(s, block);
    GrownNoneLost(s, block);
  }

  lemma ReusedQueues(s: Cache, b: nat, block: Block)
    requires QueuesOk(s) && b < |s.bios|
    ensures QueuesOk(Reused(s, b, block))
  {
    var s' := Reused(s, b, block);
    forall c | 0 <= c < |s'.bios|
      ensures QueueOk(s', c)
    {
      assert QueueOk(s, c);
    }
  }

  lemma ReusedHeld(s: Cache, b: nat, block: Block)
    requires HeldOk(s) && b < |s.bios| && !s.bios[b].reffed
    ensures HeldOk(Reused(s, b, block))
  {
    var s' := Reused(s, b, block);
    forall c | 0 <= c < |s'.bios| && s'.bios[c].reffed
      ensures HasHolder(s', c)
    {
      assert HasHolder(s, c);
    }
  }

  lemma ReusedNoneLost(s: Cache, b: nat, block: Block)
    requires NoneLost(s) && b < |s.bios| && !s.bios[b].reffed
    ensures NoneLost(Reused(s, b, block))
  {
    var s' := Reused(s, b, block);
    forall c | 0 <= c < |s'.bios| && s'.bios[c].queue != []
      ensures s'.bios[c].reffed || Retester(s', c)
    {
      assert Retester(s, c) ==> Retester(s', c);
    }
  }

  lemma ReusedCore(s: Cache, disk: Disk, b: nat, block: Block)
    requires Core(s, disk) && b < |s.bios| && !s.bios[b].reffed
    ensures Core(Reused(s, b, block), disk)
  {
    ReusedQueues(s, b, block);
    ReusedHeld(s, b, block);
    ReusedNoneLost(s, b, block);
  }

  // ----- reading

  predicate Holding(s: Cache, p: nat) {
    p < |s.processes| && s.processes[p].phase.Holds? && s.processes[p].phase.bio < |s.bios|
  }

  lemma ReadQueues(s: Cache, p: nat)
    requires QueuesOk(s) && Holding(s, p)
    ensures QueuesOk(Read(s, p))
  {
    var s' := Read(s, p);
    var b := s.processes[p].phase.bio;
    if !s.bios[b].updated {
      forall c | 0 <= c < |s'.bios|
        ensures QueueOk(s', c)
      {
        if c != b {
          QueueSame(s, s', c, p, p);
        } else {
          ReadQueue(s, p);
        }
      }
      AnyoneSame(s, s', p, p);
    }
  }

  lemma ReadQueue(s: Cache, p: nat)
    requires QueuesOk(s) && Holding(s, p) && !s.bios[s.processes[p].phase.bio].updated
    ensures QueueOk(Read(s, p), s.processes[p].phase.bio)
  {
    var b := s.processes[p].phase.bio;
    var s' := Read(s, p);
    QueueMeans(s, b, p);
    DistinctMore(s.bios[b].queue, p);
    forall r: nat
      ensures r in s'.bios[b].queue <==> r < |s'.processes| && Sleeper(s'.processes[r], b)
    {
      QueueMeans(s, b, r);
    }
  }

  lemma ReadHeld(s: Cache, p: nat)
    requires HeldOk(s) && Holding(s, p)
    ensures HeldOk(Read(s, p))
  {
    var s' := Read(s, p);
    forall c | 0 <= c < |s'.bios| && s'.bios[c].reffed
      ensures HasHolder(s', c)
    {
      HolderKept(s, s', c, p, p);
    }
  }

  /** The reader is alone: whoever reads holds. */
  lemma ReadFirst(s: Cache, p: nat)
    requires ReaderFirst(s) && HeldOk(s) && Holding(s, p)
    ensures ReaderFirst(Read(s, p))
  {
    var b := s.processes[p].phase.bio;
    assert Holder(s.processes[p], b);
  }

  lemma ReadNoneLost(s: Cache, p: nat)
    requires NoneLost(s) && HeldOk(s) && Holding(s, p)
    ensures NoneLost(Read(s, p))
  {
    var s' := Read(s, p);
    var b := s.processes[p].phase.bio;
    assert Holder(s.processes[p], b);
    forall c | 0 <= c < |s'.bios| && s'.bios[c].queue != []
      ensures s'.bios[c].reffed || Retester(s', c)
    {
      if c != b && !s.bios[c].reffed {
        RetesterKept(s, s', c, p, p);
      }
    }
  }

  lemma ReadSound(s: Cache, disk: Disk, p: nat)
    requires Sound(s, disk) && Holding(s, p)
    ensures Sound(Read(s, p), disk)
  {
    ReadQueues(s, p);
    ReadHeld(s, p);
    ReadFirst(s, p);
    ReadNoneLost(s, p);
    assert Holder(s.processes[p], s.processes[p].phase.bio);
    assert Read(s, p).bios[s.processes[p].phase.bio].reffed;
  }

  /** The reader of a buffer is asleep: a read is under way. */
  ghost predicate ReadBy(s: Cache, b: nat, p: nat) {
    b < |s.bios| && p < |s.processes| && s.processes[p].phase.Reads? && Sleeper(s.processes[p], b)
  }

  /** The completion wakes the process that asked for the read. */
  lemma WakesReader(s: Cache, b: nat, p: nat)
    requires ReaderFirst(s) && ReadBy(s, b, p)
    ensures s.bios[b].queue != [] && s.bios[b].queue[0] == p && !s.bios[b].updated
  {
  }

  lemma CompletedQueues(s: Cache, b: nat, p: nat, error: bool, data: seq<Byte>)
    requires QueuesOk(s) && ReaderFirst(s) && ReadBy(s, b, p)
    ensures s.bios[b].queue != [] && s.bios[b].queue[0] == p && QueuesOk(Completed(s, b, error, data))
  {
    WakesReader(s, b, p);
    var s' := Completed(s, b, error, data);
    forall c | 0 <= c < |s'.bios|
      ensures QueueOk(s', c)
    {
      if c != b {
        QueueSame(s, s', c, p, p);
      } else {
        QueueMeans(s, b, p);
        DistinctTail(s.bios[b].queue);
        forall r: nat
          ensures r in s'.bios[b].queue <==> r < |s'.processes| && Sleeper(s'.processes[r], b)
        {
          QueueMeans(s, b, r);
        }
      }
    }
    AnyoneSame(s, s', p, p);
  }

  lemma CompletedHeld(s: Cache, b: nat, p: nat, error: bool, data: seq<Byte>)
    requires HeldOk(s) && ReaderFirst(s) && ReadBy(s, b, p)
    ensures s.bios[b].queue != [] && s.bios[b].queue[0] == p && HeldOk(Completed(s, b, error, data))
  {
    WakesReader(s, b, p);
    var s' := Completed(s, b, error, data);
    forall c | 0 <= c < |s'.bios| && s'.bios[c].reffed
      ensures HasHolder(s', c)
    {
      HolderKept(s, s', c, p, p);
    }
  }

  lemma CompletedFirst(s: Cache, b: nat, p: nat, error: bool, data: seq<Byte>)
    requires HeldOk(s) && ReaderFirst(s) && ReadBy(s, b, p)
    ensures s.bios[b].queue != [] && s.bios[b].queue[0] == p && ReaderFirst(Completed(s, b, error, data))
  {
    WakesReader(s, b, p);
    assert Holder(s.processes[p], b);
  }

  lemma CompletedNoneLost(s: Cache, b: nat, p: nat, error: bool, data: seq<Byte>)
    requires NoneLost(s) && HeldOk(s) && ReaderFirst(s) && ReadBy(s, b, p)
    ensures s.bios[b].queue != [] && s.bios[b].queue[0] == p && NoneLost(Completed(s, b, error, data))
  {
    WakesReader(s, b, p);
    var s' := Completed(s, b, error, data);
    assert Holder(s.processes[p], b);
    forall c | 0 <= c < |s'.bios| && s'.bios[c].queue != []
      ensures s'.bios[c].reffed || Retester(s', c)
    {
      if c != b && !s.bios[c].reffed {
        RetesterKept(s, s', c, p, p);
      }
    }
  }

  lemma CompletedSound(s: Cache, disk: Disk, b: nat, p: nat, error: bool, data: seq<Byte>)
    requires Sound(s, disk) && ReadBy(s, b, p) && (!error ==> data == disk(s.bios[b].block))
    ensures s.bios[b].queue != [] && s.bios[b].queue[0] == p && Sound(Completed(s, b, error, data), disk)
  {
    WakesReader(s, b, p);
    CompletedQueues(s, b, p, error, data);
    CompletedHeld(s, b, p, error, data);
    CompletedFirst(s, b, p, error, data);
    CompletedNoneLost(s, b, p, error, data);
    assert Holder(s.processes[p], b);
    assert Completed(s, b, error, data).bios[b].reffed;
  }

  predicate Returning(s: Cache, p: nat) {
    p < |s.processes| && s.processes[p].phase.Reads? && !s.processes[p].asleep
  }

  lemma ReadEndsQueues(s: Cache, p: nat)
    requires QueuesOk(s) && Returning(s, p)
    ensures QueuesOk(ReadEnds(s, p))
  {
    var s' := ReadEnds(s, p);
    forall c | 0 <= c < |s'.bios|
      ensures QueueOk(s', c)
    {
      QueueSame(s, s', c, p, p);
    }
    AnyoneSame(s, s', p, p);
  }

  lemma ReadEndsHeld(s: Cache, p: nat)
    requires HeldOk(s) && Returning(s, p)
    ensures HeldOk(ReadEnds(s, p))
  {
    var s' := ReadEnds(s, p);
    forall c | 0 <= c < |s'.bios| && s'.bios[c].reffed
      ensures HasHolder(s', c)
    {
      HolderKept(s, s', c, p, p);
    }
  }

  lemma ReadEndsNoneLost(s: Cache, p: nat)
    requires NoneLost(s) && Returning(s, p)
    ensures NoneLost(ReadEnds(s, p))
  {
    var s' := ReadEnds(s, p);
    forall c | 0 <= c < |s'.bios| && s'.bios[c].queue != []
      ensures s'.bios[c].reffed || Retester(s', c)
    {
      if !s.bios[c].reffed {
        RetesterKept(s, s', c, p, p);
      }
    }
  }

  lemma ReadEndsSound(s: Cache, disk: Disk, p: nat)
    requires Sound(s, disk) && Returning(s, p)
    ensures Sound(ReadEnds(s, p), disk)
  {
    ReadEndsQueues(s, p);
    ReadEndsHeld(s, p);
    ReadEndsNoneLost(s, p);
    assert Holder(s.processes[p], s.processes[p].phase.bio);
    assert ReadEnds(s, p).bios[s.processes[p].phase.bio].reffed;
  }

  // ----- release

  /** Who is woken by a release: the first that waits for the buffer, else the first that waits for any. */
  function WokenBy(s: Cache, p: nat): (q: nat)
    requires CanRelease(s, p)
    ensures q < |s.processes|
  {
    var queue := s.bios[s.processes[p].phase.bio].queue;
    if queue != [] then queue[0] else if s.anyone != [] then s.anyone[0] else p
  }

  lemma ReleasePossible(s: Cache, p: nat)
    requires QueuesOk(s) && PhasesOk(s) && Holding(s, p)
    ensures CanRelease(s, p)
  {
    var b := s.processes[p].phase.bio;
    if s.bios[b].queue != [] {
      QueueMeans(s, b, s.bios[b].queue[0]);
    }
    assert s.anyone != [] ==> s.anyone[0] in s.anyone;
  }

  /** The holder is not asleep, and nobody who sleeps for a buffer that is held by another one reads. */
  lemma WokenWaits(s: Cache, p: nat)
    requires QueuesOk(s) && PhasesOk(s) && HeldOk(s) && Holding(s, p) && CanRelease(s, p)
    ensures var b := s.processes[p].phase.bio;
            var q := WokenBy(s, p);
            && (s.bios[b].queue != [] ==> q != p && s.processes[q].phase.Waits? && Sleeper(s.processes[q], b))
            && (s.bios[b].queue == [] && s.anyone != [] ==> q != p && SleepsAny(s.processes[q]))
  {
    var b := s.processes[p].phase.bio;
    assert Holder(s.processes[p], b);
    if s.bios[b].queue != [] {
      QueueMeans(s, b, s.bios[b].queue[0]);
    } else if s.anyone != [] {
      assert s.anyone[0] in s.anyone;
    }
  }

  lemma ReleaseOthers(s: Cache, p: nat)
    requires CanRelease(s, p)
    ensures OthersSame(s, Release(s, p), p, WokenBy(s, p))
  {
  }

  lemma ReleaseQueue(s: Cache, p: nat, c: nat)
    requires QueuesOk(s) && PhasesOk(s) && HeldOk(s) && Holding(s, p) && CanRelease(s, p) && c < |s.bios|
    ensures QueueOk(Release(s, p), c)
  {
    var s' := Release(s, p);
    var b := s.processes[p].phase.bio;
    WokenWaits(s, p);
    ReleaseOthers(s, p);
    if c != b || s.bios[b].queue == [] {
      QueueSame(s, s', c, p, WokenBy(s, p));
    } else {
      QueueMeans(s, b, p);
      DistinctTail(s.bios[b].queue);
      forall r: nat
        ensures r in s'.bios[b].queue <==> r < |s'.processes| && Sleeper(s'.processes[r], b)
      {
        QueueMeans(s, b, r);
      }
    }
  }

  lemma ReleaseAnyone(s: Cache, p: nat)
    requires QueuesOk(s) && PhasesOk(s) && HeldOk(s) && Holding(s, p) && CanRelease(s, p)
    ensures var s' := Release(s, p);
            Distinct(s'.anyone) && forall r: nat :: r in s'.anyone <==> r < |s'.processes| && SleepsAny(s'.processes[r])
  {
    var s' := Release(s, p);
    WokenWaits(s, p);
    ReleaseOthers(s, p);
    if s'.anyone != s.anyone {
      DistinctTail(s.anyone);
    }
    forall r: nat
      ensures r in s'.anyone <==> r < |s'.processes| && SleepsAny(s'.processes[r])
    {
      assert r in s.anyone <==> r < |s.processes| && SleepsAny(s.processes[r]);
    }
  }

  lemma ReleaseQueues(s: Cache, p: nat)
    requires QueuesOk(s) && PhasesOk(s) && HeldOk(s) && Holding(s, p) && CanRelease(s, p)
    ensures QueuesOk(Release(s, p))
  {
    ReleaseAnyone(s, p);
    forall c | 0 <= c < |Release(s, p).bios|
      ensures QueueOk(Release(s, p), c)
    {
      ReleaseQueue(s, p, c);
    }
  }

  lemma ReleaseHeld(s: Cache, p: nat)
    requires QueuesOk(s) && PhasesOk(s) && HeldOk(s) && Holding(s, p) && CanRelease(s, p)
    ensures HeldOk(Release(s, p))
  {
    var s' := Release(s, p);
    assert Holder(s.processes[p], s.processes[p].phase.bio);
    WokenWaits(s, p);
    ReleaseOthers(s, p);
    forall c | 0 <= c < |s'.bios| && s'.bios[c].reffed
      ensures HasHolder(s', c)
    {
      HolderKept(s, s', c, p, WokenBy(s, p));
    }
  }

  lemma ReleaseFirst(s: Cache, p: nat)
    requires QueuesOk(s) && PhasesOk(s) && HeldOk(s) && ReaderFirst(s) && Holding(s, p) && CanRelease(s, p)
    ensures ReaderFirst(Release(s, p))
  {
    assert Holder(s.processes[p], s.processes[p].phase.bio);
    WokenWaits(s, p);
    ReleaseOthers(s, p);
  }

  lemma ReleaseNoneLost(s: Cache, p: nat)
    requires QueuesOk(s) && PhasesOk(s) && HeldOk(s) && NoneLost(s) && Holding(s, p) && CanRelease(s, p)
    ensures NoneLost(Release(s, p))
  {
    var s' := Release(s, p);
    var b := s.processes[p].phase.bio;
    var q := WokenBy(s, p);
    WokenWaits(s, p);
    ReleaseOthers(s, p);
    forall c | 0 <= c < |s'.bios| && s'.bios[c].queue != []
      ensures s'.bios[c].reffed || Retester(s', c)
    {
      if c == b {
        assert s'.processes[q].phase.Waits? && Uses(s'.processes[q], b) && !s'.processes[q].asleep;
      } else if !s.bios[c].reffed {
        RetesterKept(s, s', c, p, q);
      }
    }
  }

  /** Whoever is woken is about to look again. */
  lemma ReleaseAnyNotLost(s: Cache, p: nat)
    requires QueuesOk(s) && PhasesOk(s) && HeldOk(s) && Holding(s, p) && CanRelease(s, p)
    ensures AnyNotLost(Release(s, p))
  {
    var s' := Release(s, p);
    var q := WokenBy(s, p);
    WokenWaits(s, p);
    if s'.anyone != [] {
      assert (s'.processes[q].phase.Waits? || s'.processes[q].phase.WaitsAny?) && !s'.processes[q].asleep;
    }
  }

  lemma ReleaseSound(s: Cache, disk: Disk, p: nat)
    requires Sound(s, disk) && Holding(s, p)
    ensures CanRelease(s, p) && Sound(Release(s, p), disk)
  {
    ReleasePossible(s, p);
    ReleaseQueues(s, p);
    ReleaseHeld(s, p);
    ReleaseFirst(s, p);
    ReleaseNoneLost(s, p);
    ReleaseAnyNotLost(s, p);
    ReleaseOthers(s, p);
    WokenWaits(s, p);
  }
}
