/** The queues in which processes sleep: a chain through the process records for each buffer, and one more. */
module SleepQueues {
  import opened IntrusiveList

  /** The chain goes on from the process at position `i`, or ends there. */
  ghost predicate Hop(next: seq<int>, q: seq<nat>, i: nat) {
    i < |q| && q[i] < |next| && next[q[i]] == (if i + 1 < |q| then q[i + 1] else -1)
  }

  ghost predicate Chain(head: int, next: seq<int>, q: seq<nat>) {
    && head == (if q == [] then -1 else q[0])
    && forall i :: 0 <= i < |q| ==> Hop(next, q, i)
  }

  lemma ChainFrame(head: int, next: seq<int>, next': seq<int>, q: seq<nat>)
    requires Chain(head, next, q) && |next'| == |next|
    requires forall p :: p in q && p < |next| ==> next'[p] == next[p]
    ensures Chain(head, next', q)
  {
    forall i | 0 <= i < |q|
      ensures Hop(next', q, i)
    {
      assert Hop(next, q, i);
    }
  }

  lemma ChainLast(head: int, next: seq<int>, q: seq<nat>, p: nat)
    requires Chain(head, next, q) && Distinct(q) && p !in q && p < |next| && next[p] == -1
    ensures q == [] ==> Chain(p, next, q + [p])
    ensures q != [] ==> q[|q| - 1] < |next| && Chain(head, next[q[|q| - 1] := p], q + [p])
  {
    var q' := q + [p];
    if q != [] {
      assert Hop(next, q, |q| - 1);
      var next' := next[q[|q| - 1] := p];
      forall i | 0 <= i < |q'|
        ensures Hop(next', q', i)
      {
        assert i < |q| ==> Hop(next, q, i);
      }
    }
  }

  lemma ChainFirst(head: int, next: seq<int>, q: seq<nat>, p: nat)
    requires Chain(head, next, q) && p !in q && p < |next|
    ensures Chain(p, next[p := head], [p] + q)
  {
    var q' := [p] + q;
    var next' := next[p := head];
    forall i | 0 <= i < |q'|
      ensures Hop(next', q', i)
    {
      assert i > 0 ==> Hop(next, q, i - 1) && q'[i] in q;
    }
  }

  lemma ChainRest(head: int, next: seq<int>, q: seq<nat>)
    requires Chain(head, next, q) && q != [] && Distinct(q)
    ensures q[0] < |next| && Chain(next[q[0]], next[q[0] := -1], q[1..])
  {
    assert Hop(next, q, 0);
    var next', q' := next[q[0] := -1], q[1..];
    forall i | 0 <= i < |q'|
      ensures Hop(next', q', i)
    {
      assert Hop(next, q, i + 1);
    }
  }

  ghost predicate Queued(queues: seq<seq<nat>>, p: nat) {
    exists k :: 0 <= k < |queues| && p in queues[k]
  }

  ghost predicate Chains(heads: seq<int>, next: seq<int>, queues: seq<seq<nat>>) {
    |heads| == |queues| && forall k :: 0 <= k < |queues| ==> Chain(heads[k], next, queues[k])
  }

  /** A process that sleeps nowhere has no successor. */
  ghost predicate Idlers(next: seq<int>, asleep: seq<bool>, queues: seq<seq<nat>>) {
    && |next| == |asleep|
    && forall p :: 0 <= p < |next| ==> (asleep[p] <==> Queued(queues, p)) && (!asleep[p] ==> next[p] == -1)
  }

  /** Rewriting one chain, by writes to its own processes and to one that sleeps nowhere else. */
  lemma ChainsUpdate(heads: seq<int>, next: seq<int>, next': seq<int>, queues: seq<seq<nat>>, k: nat, head: int,
                     q: seq<nat>, p: nat)
    requires Chains(heads, next, queues) && Separate(|next|, queues) && k < |queues| && |next'| == |next|
    requires Chain(head, next', q) && forall j :: 0 <= j < |queues| && j != k ==> p !in queues[j]
    requires forall r :: 0 <= r < |next| && r != p && r !in queues[k] ==> next'[r] == next[r]
    ensures Chains(heads[k := head], next', queues[k := q])
  {
    forall j | 0 <= j < |queues| && j != k
      ensures Chain(heads[j], next', queues[j])
    {
      ChainFrame(heads[j], next, next', queues[j]);
    }
  }

  lemma QueuedMore(queues: seq<seq<nat>>, k: nat, q: seq<nat>, p: nat, r: nat)
    requires k < |queues| && forall n :: n in q <==> n == p || n in queues[k]
    ensures Queued(queues[k := q], r) <==> r == p || Queued(queues, r)
  {
    if r == p {
      assert p in queues[k := q][k];
    } else if Queued(queues, r) {
      var j :| 0 <= j < |queues| && r in queues[j];
      assert r in queues[k := q][j];
    }
  }

  lemma QueuedLess(queues: seq<seq<nat>>, k: nat, q: seq<nat>, p: nat, r: nat, base: nat)
    requires Separate(base, queues) && k < |queues| && p in queues[k] && forall n :: n in q <==>
      n != p && n in queues[k]
    ensures Queued(queues[k := q], r) <==> r != p && Queued(queues, r)
  {
    if r != p && Queued(queues, r) {
      var j :| 0 <= j < |queues| && r in queues[j];
      assert r in queues[k := q][j];
    }
  }

  class Sleepers {
    const heads: array<int>
    const next: array<int>
    const asleep: array<bool>
    ghost var queues: seq<seq<nat>>

    ghost predicate Valid()
      reads this, heads, next, asleep
    {
      && heads != next
      && Separate(next.Length, queues)
      && Chains(heads[..], next[..], queues)
      && Idlers(next[..], asleep[..], queues)
    }

    constructor (slots: nat, processes: nat)
      ensures Valid() && fresh(heads) && fresh(next) && fresh(asleep)
      ensures queues == seq(slots, _ => []) && next.Length == processes
    {
      heads := new int[slots](_ => -1);
      next := new int[processes](_ => -1);
      asleep := new bool[processes](_ => false);
      queues := seq(slots, _ => []);
    }

    /** sleep_wait_bio: behind all the others. */
    method WaitLast(k: nat, p: nat)
      requires Valid() && k < |queues| && p < next.Length && !Queued(queues, p)
      modifies this, heads, next, asleep
      ensures Valid() && queues == old(queues)[k := old(queues[k]) + [p]]
    {
      ghost var q, heads0, next0 := queues[k], heads[..], next[..];
      assert Chain(heads0[k], next0, q);
      assert p !in q;
      ChainLast(heads0[k], next0, q, p);
      if heads[k] != -1 {
        var last := heads[k];
        ghost var i := 0;
        assert Hop(next0, q, 0);
        while next[last] != -1
          invariant i < |q| && q[i] == last && Hop(next0, q, i)
          decreases |q| - i
        {
          last := next[last];
          i := i + 1;
          assert Hop(next0, q, i);
        }
        next[last] := p;
        assert next[..] == next0[last := p];
        assert heads0[k := heads0[k]] == heads0;
        assert last in q;
        ChainsUpdate(heads0, next0, next[..], queues, k, heads0[k], q + [p], p);
      } else {
        heads[k] := p;
        assert heads[..] == heads0[k := p];
        ChainsUpdate(heads0, next0, next0, queues, k, p, q + [p], p);
      }
      Sleep(k, p, q + [p], next0);
    }

    /** The process changes its state, and gives up the processor. */
    method Sleep(ghost k: nat, p: nat, ghost q: seq<nat>, ghost next0: seq<int>)
      requires k < |queues| && p < next.Length == asleep.Length && !Queued(queues, p) && heads != next
      requires forall n :: n in q <==> n == p || n in queues[k]
      requires Distinct(q) && Separate(next.Length, queues)
      requires Chains(heads[..], next[..], queues[k := q])
      requires |next0| == next.Length && Idlers(next0, asleep[..], queues)
      requires forall r :: 0 <= r < next.Length && r != p && r !in queues[k] ==> next[r] == next0[r]
      modifies this`queues, asleep
      ensures Valid() && queues == old(queues)[k := q]
    {
      ghost var was, asleep0 := queues, asleep[..];
      SeparateUpdate(next.Length, queues, k, q);
      asleep[p] := true;
      queues := queues[k := q];
      forall r | 0 <= r < next.Length
        ensures (asleep[r] <==> Queued(queues, r)) && (!asleep[r] ==> next[r] == -1)
      {
        QueuedMore(was, k, q, p, r);
        assert r in was[k] ==> Queued(was, r);
        assert asleep0[r] <==> Queued(was, r);
      }
    }

    /** sleep_wait_bio_complete: before all the others. */
    method WaitFirst(k: nat, p: nat)
      requires Valid() && k < |queues| && p < next.Length && !Queued(queues, p)
      modifies this, heads, next, asleep
      ensures Valid() && queues == old(queues)[k := [p] + old(queues[k])]
    {
      ghost var q, heads0, next0 := queues[k], heads[..], next[..];
      assert Chain(heads0[k], next0, q);
      assert p !in q;
      ChainFirst(heads0[k], next0, q, p);
      next[p] := heads[k];
      heads[k] := p;
      assert next[..] == next0[p := heads0[k]] && heads[..] == heads0[k := p];
      ChainsUpdate(heads0, next0, next[..], queues, k, p, [p] + q, p);
      Sleep(k, p, [p] + q, next0);
    }

    method IsEmpty(k: nat) returns (empty: bool)
      requires Valid() && k < |queues|
      ensures empty <==> queues[k] == []
    {
      empty := heads[k] == -1;
      assert Chain(heads[..][k], next[..], queues[k]);
    }

    /** Wakes the first process of a queue. */
    method WakeFirst(k: nat) returns (p: nat)
      requires Valid() && k < |queues| && queues[k] != []
      modifies this, heads, next, asleep
      ensures Valid() && p == old(queues[k][0]) && p < next.Length && queues == old(queues)[k := old(queues[k])[1..]]
    {
      ghost var was, q, heads0, next0, asleep0 := queues, queues[k], heads[..], next[..], asleep[..];
      assert Chain(heads0[k], next0, q);
      ChainRest(heads0[k], next0, q);
      DistinctTail(q);
      p := heads[k];
      heads[k] := next[p];
      next[p] := -1;
      assert next[..] == next0[p := -1] && heads[..] == heads0[k := next0[p]];
      assert p in q;
      ChainsUpdate(heads0, next0, next[..], queues, k, next0[p], q[1..], p);
      SeparateUpdate(next.Length, queues, k, q[1..]);
      asleep[p] := false;
      queues := queues[k := q[1..]];
      forall r | 0 <= r < next.Length
        ensures (asleep[r] <==> Queued(queues, r)) && (!asleep[r] ==> next[r] == -1)
      {
        QueuedLess(was, k, q[1..], p, r, next.Length);
        assert asleep0[r] <==> Queued(was, r);
      }
    }
  }
}
