/** Runs of the scheduler: no process waits forever, and none runs twice while another waits. */
module SchedulerRuns {
  import opened IntrusiveList
  import opened RoundRobin

  /** The kernel task, which is always ready. */
  const KTASK: nat := 0

  datatype Child = NoChild | Forked(process: nat)

  /** The states at the time of a scan, and the child that the process then run may have forked. */
  datatype Round = Round(states: seq<State>, child: Child)

  ghost function After(v: Turn, r: Round): Turn
    requires SomeReady(v.List(), r.states)
  {
    var v' := Dispatched(v, r.states);
    if r.child.Forked? then Added(v', r.child.process) else v'
  }

  lemma KernelTaskReady(v: Turn, states: seq<State>)
    requires KTASK in v.List() && Ready(states, KTASK)
    ensures SomeReady(v.List(), states)
  {
  }

  lemma StaysListed(v: Turn, child: Child)
    requires KTASK in v.List()
    ensures child.Forked? ==> KTASK in Added(v, child.process).List()
  {
  }

  lemma KernelTaskStays(v: Turn, r: Round)
    requires KTASK in v.List() && Ready(r.states, KTASK)
    ensures SomeReady(v.List(), r.states) && KTASK in After(v, r).List()
  {
    KernelTaskReady(v, r.states);
    ScanConserves(v, r.states);
    assert KTASK !in Freed(v, r.states);
    assert multiset(v.List())[KTASK] > 0 && multiset(Freed(v, r.states))[KTASK] == 0;
    assert KTASK in multiset(Dispatched(v, r.states).List());
    StaysListed(Dispatched(v, r.states), r.child);
  }

  /**
   Round `i` leads from one turn to the next: any states in which the kernel task is ready, and a child that
   is not listed yet. That the kernel task is listed is no restriction: see `RunGoesOn`.
   */
  ghost predicate RoundStep(turns: seq<Turn>, rounds: seq<Round>, i: nat)
    requires i < |rounds| && |turns| == |rounds| + 1
  {
    var v, r := turns[i], rounds[i];
    && KTASK in v.List() && Ready(r.states, KTASK) && SomeReady(v.List(), r.states)
    && (r.child.Forked? ==> r.child.process !in Dispatched(v, r.states).List())
    && turns[i + 1] == After(v, r)
  }

  ghost predicate IsRun(turns: seq<Turn>, rounds: seq<Round>) {
    |turns| == |rounds| + 1 && forall i :: 0 <= i < |rounds| ==> RoundStep(turns, rounds, i)
  }

  /** From wherever the kernel task is listed, every round is possible in which it is ready and the child is new. */
  lemma RunGoesOn(turns: seq<Turn>, rounds: seq<Round>, r: Round) returns (v: Turn)
    requires IsRun(turns, rounds) && KTASK in turns[0].List() && Ready(r.states, KTASK)
    requires r.child.Forked? ==> r.child.process !in turns[|rounds|].List()
    ensures IsRun(turns + [v], rounds + [r])
  {
    var n := |rounds|;
    if n > 0 {
      assert RoundStep(turns, rounds, n - 1);
      KernelTaskStays(turns[n - 1], rounds[n - 1]);
    }
    KernelTaskReady(turns[n], r.states);
    OnlyListed(turns[n], r.states);
    v := After(turns[n], r);
    var turns', rounds' := turns + [v], rounds + [r];
    forall i | 0 <= i < |rounds'|
      ensures RoundStep(turns', rounds', i)
    {
      if i < n {
        StepKept(turns, rounds, v, r, i);
      }
    }
  }

  lemma StepKept(turns: seq<Turn>, rounds: seq<Round>, v: Turn, r: Round, i: nat)
    requires IsRun(turns, rounds) && i < |rounds|
    ensures RoundStep(turns + [v], rounds + [r], i)
  {
    assert RoundStep(turns, rounds, i);
  }

  lemma OnlyListed(v: Turn, states: seq<State>)
    requires SomeReady(v.List(), states)
    ensures forall n :: n in Dispatched(v, states).List() ==> n in v.List()
  {
    ScanConserves(v, states);
    forall n | n in Dispatched(v, states).List()
      ensures n in v.List()
    {
      assert n in multiset(Dispatched(v, states).List());
      assert n in multiset(v.List());
    }
  }

  ghost predicate Runs(turns: seq<Turn>, rounds: seq<Round>, i: nat, n: nat)
    requires IsRun(turns, rounds) && i < |rounds|
  {
    assert RoundStep(turns, rounds, i);
    Chosen(turns[i], rounds[i].states) == n
  }

  ghost predicate IsFreed(turns: seq<Turn>, rounds: seq<Round>, i: nat, n: nat)
    requires IsRun(turns, rounds) && i < |rounds|
  {
    n in Freed(turns[i], rounds[i].states)
  }

  // ----- positions

  function IndexOf(s: seq<nat>, n: nat): (i: nat)
    ensures i <= |s| && (i < |s| <==> n in s)
  {
    if s == [] || s[0] == n then 0 else 1 + IndexOf(s[1..], n)
  }

  lemma {:induction false} IndexAppend(a: seq<nat>, b: seq<nat>, n: nat)
    ensures IndexOf(a + b, n) == if n in a then IndexOf(a, n) else |a| + IndexOf(b, n)
  {
    if a == [] {
      assert a + b == b;
    } else {
      assert (a + b)[0] == a[0] && (a + b)[1..] == a[1..] + b;
      if a[0] != n {
        IndexAppend(a[1..], b, n);
      }
    }
  }

  /**
   A process that is ready or dead is not just passed by: it is chosen, freed, or nearer the front of what
   is left.
   */
  lemma {:induction false} SkipNearer(s: seq<nat>, states: seq<State>, q: nat)
    requires q in s && (Ready(states, q) || Dead(states, q)) && q !in Reaped(s, states)
    ensures var rest := Skip(s, states).1;
            && rest != []
            && (q != rest[0] ==> q in rest[1..] && IndexOf(rest[1..], q) < IndexOf(s, q))
  {
    if !Ready(states, s[0]) {
      SkipNearer(s[1..], states, q);
    }
  }

  /** Of two processes the scan does not change the order, unless it passes the first. */
  lemma {:induction false} SkipOrder(s: seq<nat>, states: seq<State>, q: nat, p: nat)
    requires q in s && Ready(states, q) && IndexOf(s, q) < IndexOf(s, p)
    ensures var rest := Skip(s, states).1;
            && rest != []
            && (q != rest[0] ==> p != rest[0] && q in rest[1..] && IndexOf(rest[1..], q) < IndexOf(rest[1..], p))
  {
    if !Ready(states, s[0]) {
      SkipOrder(s[1..], states, q, p);
    }
  }

  // ----- how long a process waits

  /**
   How many more rounds it can take until a scan comes to a process. For one that was passed already, a
   round may still add a child before it for each process ahead.
   */
  function Wait(v: Turn, q: nat): nat {
    if q in v.ahead then IndexOf(v.ahead, q) + 1 else 2 * |v.ahead| + IndexOf(v.passed, q) + 1
  }

  ghost predicate Met(v: Turn, states: seq<State>, q: nat)
    requires SomeReady(v.List(), states)
  {
    q == Chosen(v, states) || q in Freed(v, states)
  }

  lemma WaitAhead(v: Turn, states: seq<State>, q: nat)
    requires SomeReady(v.List(), states) && q in v.ahead && (Ready(states, q) || Dead(states, q)) && !Met(v, states, q)
    ensures var v' := Dispatched(v, states); v'.passed != [] && q in v'.ahead && Wait(v', q) < Wait(v, q)
  {
    ReapedAppend(v.ahead, v.passed, states);
    SkipNearer(v.ahead, states, q);
  }

  /** The scan stays ahead of the process: then what is ahead shrinks. */
  lemma WaitPassed(v: Turn, states: seq<State>, q: nat)
    requires SomeReady(v.List(), states) && q in v.passed && q !in v.ahead && SomeReady(v.ahead, states)
    ensures var v' := Dispatched(v, states); q in v'.passed && q !in v'.ahead && Wait(v', q) + 2 <= Wait(v, q)
  {
    SkipFinds(v.ahead, states);
    var (kept, rest) := Skip(v.ahead, states);
    SkipSuffix(v.ahead, states);
    assert forall n :: n in rest[1..] ==> n in v.ahead;
    assert v.passed + kept + [rest[0]] == v.passed + (kept + [rest[0]]);
    IndexAppend(v.passed, kept + [rest[0]], q);
  }

  /** The scan starts over. */
  lemma WaitAround(v: Turn, states: seq<State>, q: nat)
    requires SomeReady(v.List(), states) && q in v.passed && !SomeReady(v.ahead, states)
    requires (Ready(states, q) || Dead(states, q)) && !Met(v, states, q) && q !in v.ahead
    ensures var v' := Dispatched(v, states); v'.passed != [] && q in v'.ahead && Wait(v', q) < Wait(v, q)
  {
    SkipFinds(v.ahead, states);
    SkipFinds(v.passed, states);
    ReapedAppend(v.ahead, v.passed, states);
    SkipNearer(v.passed, states, q);
    IndexAppend(Skip(v.passed, states).1[1..], Skip(v.ahead, states).0, q);
  }

  lemma WaitAdded(v: Turn, n: nat, q: nat)
    requires v.passed != [] && q in v.List() && n != q
    ensures var v' := Added(v, n);
            q in v'.List() && Wait(v', q) <= Wait(v, q) + (if q in v.ahead then 0 else 1)
  {
    IndexAppend([n], v.passed, q);
  }

  /** Whatever else happens in a round, a process that was not met waits for fewer rounds afterwards. */
  lemma WaitShrinks(v: Turn, r: Round, q: nat)
    requires SomeReady(v.List(), r.states) && q in v.List() && Distinct(v.List())
    requires (Ready(r.states, q) || Dead(r.states, q)) && !Met(v, r.states, q)
    requires r.child.Forked? ==> r.child.process !in Dispatched(v, r.states).List()
    ensures q in After(v, r).List() && Wait(After(v, r), q) < Wait(v, q)
  {
    var v' := Dispatched(v, r.states);
    if q in v.ahead {
      WaitAhead(v, r.states, q);
    } else if SomeReady(v.ahead, r.states) {
      WaitPassed(v, r.states, q);
    } else {
      WaitAround(v, r.states, q);
    }
    if r.child.Forked? {
      WaitAdded(v', r.child.process, q);
    }
  }

  lemma WaitBounded(v: Turn, q: nat)
    requires q in v.List()
    ensures 1 <= Wait(v, q) <= 2 * |v.List()|
  {
  }

  /** Scans and forks keep every process listed once. */
  lemma StaysDistinct(v: Turn, r: Round)
    requires SomeReady(v.List(), r.states) && Distinct(v.List())
    requires r.child.Forked? ==> r.child.process !in Dispatched(v, r.states).List()
    ensures Distinct(After(v, r).List())
  {
    var v' := Dispatched(v, r.states);
    ScanConserves(v, r.states);
    forall n: nat
      ensures multiset(v'.List())[n] <= 1
    {
      DistinctOnce(v.List(), n);
    }
    OnceDistinct(v'.List());
    if r.child.Forked? {
      AddedInFront(v', r.child.process);
      InsertedMembers(v'.List(), 0, r.child.process);
    }
  }

  lemma AddedInFront(v: Turn, n: nat)
    ensures Added(v, n).List() == v.List()[..0] + [n] + v.List()[0..]
  {
  }

  lemma OnceDistinct(s: seq<nat>)
    requires forall n: nat :: multiset(s)[n] <= 1
    ensures Distinct(s)
  {
    forall i, j | 0 <= i < j < |s|
      ensures s[i] != s[j]
    {
      assert s == s[..j] + s[j..];
      assert s[i] in s[..j] && s[j] in s[j..];
      assert multiset(s)[s[j]] == multiset(s[..j])[s[j]] + multiset(s[j..])[s[j]];
      assert s[i] in multiset(s[..j]) && s[j] in multiset(s[j..]);
    }
  }

  /** As long as a process was not met, it waits for fewer rounds after each. */
  lemma {:induction false} StillWaits(turns: seq<Turn>, rounds: seq<Round>, q: nat, i: nat)
    requires IsRun(turns, rounds) && i <= |rounds| && Distinct(turns[0].List()) && q in turns[0].List()
    requires forall k :: 0 <= k < |rounds| ==> Ready(rounds[k].states, q) || Dead(rounds[k].states, q)
    requires forall k :: 0 <= k < i ==> !Runs(turns, rounds, k, q) && !IsFreed(turns, rounds, k, q)
    ensures Distinct(turns[i].List()) && q in turns[i].List() && Wait(turns[i], q) + i <= Wait(turns[0], q)
  {
    if i > 0 {
      var k := i - 1;
      StillWaits(turns, rounds, q, k);
      assert RoundStep(turns, rounds, k) && !Runs(turns, rounds, k, q);
      WaitShrinks(turns[k], rounds[k], q);
      StaysDistinct(turns[k], rounds[k]);
    }
  }

  /** Among as many rounds as it is to wait there is one in which a process is met. */
  lemma MetInTime(turns: seq<Turn>, rounds: seq<Round>, q: nat)
    requires IsRun(turns, rounds) && Distinct(turns[0].List()) && q in turns[0].List() &&
             |rounds| >= 2 * |turns[0].List()|
    requires forall k :: 0 <= k < |rounds| ==> Ready(rounds[k].states, q) || Dead(rounds[k].states, q)
    ensures exists i :: 0 <= i < 2 * |turns[0].List()| && (Runs(turns, rounds, i, q) || IsFreed(turns, rounds, i, q))
  {
    var n := Wait(turns[0], q);
    WaitBounded(turns[0], q);
    if forall k :: 0 <= k < n ==> !Runs(turns, rounds, k, q) && !IsFreed(turns, rounds, k, q) {
      StillWaits(turns, rounds, q, n);
    }
  }

  /** A process that stays ready runs within twice as many rounds as there are processes, whatever the others fork. */
  lemma NoStarvation(turns: seq<Turn>, rounds: seq<Round>, q: nat)
    requires IsRun(turns, rounds) && Distinct(turns[0].List()) && q in turns[0].List() &&
             |rounds| >= 2 * |turns[0].List()|
    requires forall k :: 0 <= k < |rounds| ==> Ready(rounds[k].states, q)
    ensures exists i :: 0 <= i < 2 * |turns[0].List()| && Runs(turns, rounds, i, q)
  {
    MetInTime(turns, rounds, q);
    var i :| 0 <= i < 2 * |turns[0].List()| && (Runs(turns, rounds, i, q) || IsFreed(turns, rounds, i, q));
    assert RoundStep(turns, rounds, i);
    ScanConserves(turns[i], rounds[i].states);
  }

  /** A process that is dead is freed within as many rounds. */
  lemma DeadIsFreed(turns: seq<Turn>, rounds: seq<Round>, q: nat)
    requires IsRun(turns, rounds) && Distinct(turns[0].List()) && q in turns[0].List() &&
             |rounds| >= 2 * |turns[0].List()|
    requires forall k :: 0 <= k < |rounds| ==> Dead(rounds[k].states, q)
    ensures exists i :: 0 <= i < 2 * |turns[0].List()| && IsFreed(turns, rounds, i, q)
  {
    MetInTime(turns, rounds, q);
    var i :| 0 <= i < 2 * |turns[0].List()| && (Runs(turns, rounds, i, q) || IsFreed(turns, rounds, i, q));
    assert RoundStep(turns, rounds, i);
    ScanConserves(turns[i], rounds[i].states);
  }

  // ----- fairness between two turns of a process

  /** A scan comes to `q` before `p`, if `p` is listed at all. */
  ghost predicate Sooner(v: Turn, q: nat, p: nat) {
    q in v.Order() && IndexOf(v.Order(), q) < IndexOf(v.Order(), p)
  }

  lemma SoonerDispatched(v: Turn, states: seq<State>, q: nat, p: nat)
    requires SomeReady(v.List(), states) && Sooner(v, q, p) && Ready(states, q) && Chosen(v, states) != q
    ensures Chosen(v, states) != p && Sooner(Dispatched(v, states), q, p)
  {
    OrderMoves(v, states);
    SkipOrder(v.Order(), states, q, p);
    var (kept, rest) := Skip(v.Order(), states);
    assert rest[1..] + kept + [rest[0]] == rest[1..] + (kept + [rest[0]]);
    IndexAppend(rest[1..], kept + [rest[0]], q);
    IndexAppend(rest[1..], kept + [rest[0]], p);
  }

  lemma SoonerAdded(v: Turn, n: nat, q: nat, p: nat)
    requires Sooner(v, q, p) && v.passed != [] && n != q && n != p
    ensures Sooner(Added(v, n), q, p)
  {
    IndexAppend(v.ahead, v.passed, q);
    IndexAppend(v.ahead, v.passed, p);
    IndexAppend(v.ahead, [n] + v.passed, q);
    IndexAppend(v.ahead, [n] + v.passed, p);
    IndexAppend([n], v.passed, q);
    IndexAppend([n], v.passed, p);
  }

  lemma SoonerAfter(v: Turn, r: Round, q: nat, p: nat)
    requires SomeReady(v.List(), r.states) && Sooner(v, q, p) && Ready(r.states, q) && Chosen(v, r.states) != q
    requires r.child.Forked? ==> r.child.process !in Dispatched(v, r.states).List() && r.child.process != p
    ensures Chosen(v, r.states) != p && Sooner(After(v, r), q, p)
  {
    SoonerDispatched(v, r.states, q, p);
    var v' := Dispatched(v, r.states);
    if r.child.Forked? {
      assert q in v'.Order() && q in v'.List();
      SoonerAdded(v', r.child.process, q, p);
    }
  }

  /** As long as `q` has not run, it is to run before `p`. */
  lemma {:induction false} StaysSooner(turns: seq<Turn>, rounds: seq<Round>, q: nat, p: nat, i: nat)
    requires IsRun(turns, rounds) && i <= |rounds| && Sooner(turns[0], q, p)
    requires forall j :: 0 <= j < i ==>
                           !Runs(turns, rounds, j, q) && Ready(rounds[j].states, q) && rounds[j].child != Forked(p)
    ensures Sooner(turns[i], q, p)
  {
    if i > 0 {
      StaysSooner(turns, rounds, q, p, i - 1);
      assert RoundStep(turns, rounds, i - 1) && !Runs(turns, rounds, i - 1, q);
      SoonerAfter(turns[i - 1], rounds[i - 1], q, p);
    }
  }

  /**
   Between two turns of a process, every process that stays ready has a turn, although children enter at
   the front.
   */
  lemma Fair(turns: seq<Turn>, rounds: seq<Round>, q: nat, p: nat, k: nat)
    requires IsRun(turns, rounds) && Distinct(turns[0].List()) && k < |rounds|
    requires var before := turns[0].passed; before != [] && before[|before| - 1] == p
    requires q in turns[0].List() && q != p
    requires forall j :: 0 <= j <= k ==> Ready(rounds[j].states, q) && rounds[j].child != Forked(p)
    requires Runs(turns, rounds, k, p)
    ensures exists i :: 0 <= i < k && Runs(turns, rounds, i, q)
  {
    LastIsLatest(turns[0], q, p);
    if forall i :: 0 <= i < k ==> !Runs(turns, rounds, i, q) {
      StaysSooner(turns, rounds, q, p, k);
      assert RoundStep(turns, rounds, k);
      SoonerNotChosen(turns[k], rounds[k].states, q, p);
    }
  }

  lemma SoonerNotChosen(v: Turn, states: seq<State>, q: nat, p: nat)
    requires SomeReady(v.List(), states) && Sooner(v, q, p) && Ready(states, q) && p != q
    ensures Chosen(v, states) != p
  {
    if Chosen(v, states) != q {
      SoonerDispatched(v, states, q, p);
    }
  }

  lemma LastIsLatest(v: Turn, q: nat, p: nat)
    requires Distinct(v.List()) && v.passed != [] && v.passed[|v.passed| - 1] == p && q in v.List() && q != p
    ensures Sooner(v, q, p)
  {
    var order := v.Order();
    var m := |order| - 1;
    assert order[m] == p && order == order[..m] + [p];
    OnceInOrder(v, p);
    assert multiset(order)[p] == multiset(order[..m])[p] + 1;
    assert p !in multiset(order[..m]);
    IndexAppend(order[..m], [p], q);
    IndexAppend(order[..m], [p], p);
    assert q in v.passed || q in v.ahead;
    assert q in order[..m];
  }
}
