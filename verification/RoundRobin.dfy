/**
 The order in which the scheduler serves processes. The processes it has passed in this round, the one that
 runs being the last of them, come before those that are still ahead.
 */
module RoundRobin {
  import opened IntrusiveList

  datatype State = Unused | Running | WaitingIo | Exited

  predicate Ready(states: seq<State>, n: nat) {
    n < |states| && states[n] == Running
  }

  predicate Dead(states: seq<State>, n: nat) {
    n < |states| && states[n] == Exited
  }

  datatype Turn = Turn(passed: seq<nat>, ahead: seq<nat>) {
    /** The process list, from the front. */
    function List(): seq<nat> {
      passed + ahead
    }

    /** The processes in the order in which a scan comes to them. */
    function Order(): seq<nat> {
      ahead + passed
    }
  }

  /** The processes up to the first that is ready, without the dead ones, and the others. */
  function Skip(s: seq<nat>, states: seq<State>): (r: (seq<nat>, seq<nat>))
    ensures r.1 != [] ==> Ready(states, r.1[0])
    ensures |r.0| + |r.1| <= |s|
  {
    if s == [] || Ready(states, s[0]) then ([], s)
    else
      var (kept, rest) := Skip(s[1..], states);
      (if Dead(states, s[0]) then kept else [s[0]] + kept, rest)
  }

  /** The dead ones among those. */
  function Reaped(s: seq<nat>, states: seq<State>): seq<nat> {
    if s == [] || Ready(states, s[0]) then []
    else (if Dead(states, s[0]) then [s[0]] else []) + Reaped(s[1..], states)
  }

  ghost predicate SomeReady(s: seq<nat>, states: seq<State>) {
    exists n :: n in s && Ready(states, n)
  }

  lemma {:induction false} SkipFinds(s: seq<nat>, states: seq<State>)
    ensures Skip(s, states).1 != [] <==> SomeReady(s, states)
  {
    if s != [] && !Ready(states, s[0]) {
      SkipFinds(s[1..], states);
      assert s == [s[0]] + s[1..];
    }
  }

  /** The next process runs: from those ahead, and if none is ready, from the front of the list. */
  ghost function Dispatched(v: Turn, states: seq<State>): Turn
    requires SomeReady(v.List(), states)
  {
    SkipFinds(v.ahead, states);
    SkipFinds(v.passed, states);
    var (kept, rest) := Skip(v.ahead, states);
    if rest != [] then Turn(v.passed + kept + [rest[0]], rest[1..])
    else
      var (front, others) := Skip(v.passed, states);
      Turn(front + [others[0]], others[1..] + kept)
  }

  ghost function Chosen(v: Turn, states: seq<State>): nat
    requires SomeReady(v.List(), states)
  {
    var passed := Dispatched(v, states).passed;
    passed[|passed| - 1]
  }

  /** sched_add links a process in at the front of the list. */
  function Added(v: Turn, n: nat): Turn {
    if v.passed == [] then Turn([], [n] + v.ahead) else Turn([n] + v.passed, v.ahead)
  }

  // ----- one scan

  lemma {:induction false} SkipAppend(a: seq<nat>, b: seq<nat>, states: seq<State>)
    ensures var r := Skip(a, states);
            && Skip(a + b, states) == (if r.1 != [] then (r.0, r.1 + b)
                                       else (r.0 + Skip(b, states).0, Skip(b, states).1))
  {
    if a == [] {
      assert a + b == b && [] + Skip(b, states).0 == Skip(b, states).0;
    } else if !Ready(states, a[0]) {
      assert (a + b)[1..] == a[1..] + b;
      SkipAppend(a[1..], b, states);
      Reassociate(a[0], Skip(a[1..], states).0, Skip(b, states).0);
    }
  }

  lemma Reassociate(x: nat, a: seq<nat>, b: seq<nat>)
    ensures ([x] + a) + b == [x] + (a + b)
  {
  }

  lemma {:induction false} ReapedAppend(a: seq<nat>, b: seq<nat>, states: seq<State>)
    ensures Reaped(a + b, states) == Reaped(a, states) + (if Skip(a, states).1 != [] then [] else Reaped(b, states))
  {
    if a == [] {
      assert a + b == b;
    } else if !Ready(states, a[0]) {
      assert (a + b)[1..] == a[1..] + b;
      ReapedAppend(a[1..], b, states);
    }
  }

  /** In scanning order, a scan moves what it has passed to the end. */
  lemma OrderMoves(v: Turn, states: seq<State>)
    requires SomeReady(v.List(), states)
    ensures var r := Skip(v.Order(), states);
            && r.1 != [] && Dispatched(v, states).Order() == r.1[1..] + r.0 + [r.1[0]]
            && Chosen(v, states) == r.1[0]
  {
    var r := Skip(v.Order(), states);
    SkipFinds(v.ahead, states);
    SkipFinds(v.passed, states);
    SkipAppend(v.ahead, v.passed, states);
    var (kept, rest) := Skip(v.ahead, states);
    if rest != [] {
      MovedWithin(v.passed, kept, rest);
    } else {
      var (front, others) := Skip(v.passed, states);
      MovedAround(kept, front, others);
    }
  }

  lemma MovedWithin(passed: seq<nat>, kept: seq<nat>, rest: seq<nat>)
    requires rest != []
    ensures rest[1..] + (passed + kept + [rest[0]]) == (rest + passed)[1..] + kept + [(rest + passed)[0]]
  {
  }

  lemma MovedAround(kept: seq<nat>, front: seq<nat>, others: seq<nat>)
    requires others != []
    ensures (others[1..] + kept) + (front + [others[0]]) == others[1..] + (kept + front) + [others[0]]
  {
  }

  lemma {:induction false} SkipCounts(s: seq<nat>, states: seq<State>, n: nat)
    ensures var r := Skip(s, states);
            multiset(s)[n] == multiset(r.0)[n] + multiset(r.1)[n] + multiset(Reaped(s, states))[n]
  {
    if s != [] && !Ready(states, s[0]) {
      SkipCounts(s[1..], states, n);
      assert s == [s[0]] + s[1..];
    }
  }

  lemma {:induction false} SkipKinds(s: seq<nat>, states: seq<State>)
    ensures forall n :: n in Reaped(s, states) ==> Dead(states, n)
    ensures forall n :: n in Skip(s, states).0 ==> !Dead(states, n) && !Ready(states, n)
  {
    if s != [] && !Ready(states, s[0]) {
      SkipKinds(s[1..], states);
    }
  }

  /** The dead processes that a scan meets before it finds the next one to run. */
  function Freed(v: Turn, states: seq<State>): seq<nat> {
    Reaped(v.Order(), states)
  }

  lemma OrderCounts(v: Turn)
    ensures multiset(v.Order()) == multiset(v.List())
  {
  }

  lemma Regrouped(a: seq<nat>, b: seq<nat>, n: nat)
    requires b != []
    ensures multiset(b[1..] + a + [b[0]])[n] == multiset(a)[n] + multiset(b)[n]
  {
    assert b == [b[0]] + b[1..];
  }

  lemma ScanCounts(v: Turn, states: seq<State>, n: nat)
    requires SomeReady(v.List(), states)
    ensures multiset(v.List())[n] == multiset(Dispatched(v, states).List())[n] + multiset(Freed(v, states))[n]
  {
    OrderMoves(v, states);
    OrderCounts(v);
    OrderCounts(Dispatched(v, states));
    SkipCounts(v.Order(), states, n);
    var (kept, rest) := Skip(v.Order(), states);
    Regrouped(kept, rest, n);
  }

  lemma ScanCountsAll(v: Turn, states: seq<State>)
    requires SomeReady(v.List(), states)
    ensures multiset(v.List()) == multiset(Dispatched(v, states).List()) + multiset(Freed(v, states))
  {
    forall n: nat
      ensures multiset(v.List())[n] == multiset(Dispatched(v, states).List())[n] + multiset(Freed(v, states))[n]
    {
      ScanCounts(v, states, n);
    }
  }

  /** A scan frees dead processes only, each once, keeps all the others listed once, and runs a ready one. */
  lemma ScanConserves(v: Turn, states: seq<State>)
    requires SomeReady(v.List(), states)
    ensures multiset(v.List()) == multiset(Dispatched(v, states).List()) + multiset(Freed(v, states))
    ensures forall n :: n in Freed(v, states) ==> Dead(states, n)
    ensures Ready(states, Chosen(v, states)) && Chosen(v, states) in v.List()
  {
    ScanCountsAll(v, states);
    SkipKinds(v.Order(), states);
    OrderMoves(v, states);
    ChosenListed(v, states);
  }

  lemma ChosenListed(v: Turn, states: seq<State>)
    requires SomeReady(v.List(), states)
    ensures Chosen(v, states) in v.List()
  {
    OrderMoves(v, states);
    SkipSuffix(v.Order(), states);
    assert Chosen(v, states) in v.Order();
  }

  /** The process that ran last, whose address space is still loaded, is not freed by the scan after it. */
  lemma LastRunSurvives(v: Turn, states: seq<State>)
    requires SomeReady(v.List(), states) && Distinct(v.List()) && v.passed != []
    ensures v.passed[|v.passed| - 1] !in Freed(v, states)
  {
    var order := v.Order();
    var last := order[|order| - 1];
    OrderMoves(v, states);
    assert last == v.passed[|v.passed| - 1];
    SkipSuffix(order, states);
    SkipCounts(order, states, last);
    var rest := Skip(order, states).1;
    assert rest[|rest| - 1] == last;
    OnceInOrder(v, last);
  }

  lemma OnceInOrder(v: Turn, n: nat)
    requires Distinct(v.List())
    ensures multiset(v.Order())[n] <= 1
  {
    assert multiset(v.Order()) == multiset(v.List());
    DistinctOnce(v.List(), n);
  }

  lemma {:induction false} DistinctOnce(s: seq<nat>, n: nat)
    requires Distinct(s)
    ensures multiset(s)[n] <= 1
  {
    if s != [] {
      DistinctOnce(s[1..], n);
      assert s == [s[0]] + s[1..];
      assert s[0] !in s[1..];
    }
  }

  lemma {:induction false} SkipSuffix(s: seq<nat>, states: seq<State>)
    ensures var rest := Skip(s, states).1; |rest| <= |s| && rest == s[|s| - |rest|..]
  {
    if s != [] && !Ready(states, s[0]) {
      SkipSuffix(s[1..], states);
    }
  }
}
