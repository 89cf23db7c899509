/** The scheduler: the ring of processes, the scan for the next one, and the release of dead ones. */
module Scheduler {
  import opened IntrusiveList
  import opened RoundRobin
  import opened SchedulerRuns

  /**
   How far a scan is: it has passed `before`, stands in front of `todo`, and will not come to `behind`; `freed`
   are the dead processes it met. Once `around`, it has started over from the front of the list.
   */
  datatype Scan = Scan(around: bool, before: seq<nat>, todo: seq<nat>, behind: seq<nat>, freed: seq<nat>) {
    function List(): seq<nat> {
      before + todo + behind
    }

    function Passing(): Scan
      requires todo != []
    {
      this.(before := before + [todo[0]], todo := todo[1..])
    }

    function Freeing(): Scan
      requires todo != []
    {
      this.(todo := todo[1..], freed := freed + [todo[0]])
    }
  }

  /** Keeps `Scanning` closed: what it says is in view only where a key is stated. */
  ghost predicate ScanKey(k: int) {
    true
  }

  ghost predicate Scanning(v: Turn, states: seq<State>, c: Scan) {
    forall k {:trigger ScanKey(k)} :: ScanKey(k) ==> ScanningBody(v, states, c)
  }

  lemma ScanningMeans(v: Turn, states: seq<State>, c: Scan)
    requires Scanning(v, states, c)
    ensures ScanningBody(v, states, c)
  {
    assert ScanKey(0);
  }

  ghost predicate ScanningBody(v: Turn, states: seq<State>, c: Scan) {
    if c.around then
      && Skip(v.ahead, states).1 == [] && c.behind == Skip(v.ahead, states).0
      && c.before + Skip(c.todo, states).0 == Skip(v.passed, states).0
      && Skip(c.todo, states).1 == Skip(v.passed, states).1
      && c.freed + Reaped(c.todo, states) == Reaped(v.ahead, states) + Reaped(v.passed, states)
    else
      && c.behind == [] && v.passed <= c.before
      && c.before[|v.passed|..] + Skip(c.todo, states).0 == Skip(v.ahead, states).0
      && Skip(c.todo, states).1 == Skip(v.ahead, states).1
      && c.freed + Reaped(c.todo, states) == Reaped(v.ahead, states)
  }

  function Begun(v: Turn): Scan {
    Scan(false, v.passed, v.ahead, [], [])
  }

  /** Back at the sentinel, the scan starts over from the front. */
  function Around(v: Turn, c: Scan): Scan
    requires |v.passed| <= |c.before|
  {
    Scan(true, [], v.passed, c.before[|v.passed|..], c.freed)
  }

  lemma ScanBegins(v: Turn, states: seq<State>)
    ensures Scanning(v, states, Begun(v)) && Begun(v).List() == v.List()
  {
    assert ScanningBody(v, states, Begun(v));
  }

  lemma Carry<T>(a: seq<T>, x: T, b: seq<T>)
    ensures a + ([x] + b) == (a + [x]) + b
  {
  }

  lemma SplitFirst<T>(a: seq<T>, b: seq<T>, c: seq<T>)
    requires b != []
    ensures (a + [b[0]]) + b[1..] + c == a + b + c
  {
  }

  lemma DropFirst<T>(a: seq<T>, b: seq<T>, c: seq<T>)
    requires b != []
    ensures |a| < |a + b + c| && a + b[1..] + c == RemoveAt(a + b + c, |a|)
  {
  }

  lemma ScanPasses(v: Turn, states: seq<State>, c: Scan)
    requires Scanning(v, states, c) && c.todo != [] && !Ready(states, c.todo[0]) && !Dead(states, c.todo[0])
    ensures Scanning(v, states, c.Passing()) && c.Passing().List() == c.List()
  {
    ScanningMeans(v, states, c);
    Carry(c.before, c.todo[0], Skip(c.todo[1..], states).0);
    if !c.around {
      assert (c.before + [c.todo[0]])[|v.passed|..] == c.before[|v.passed|..] + [c.todo[0]];
      Carry(c.before[|v.passed|..], c.todo[0], Skip(c.todo[1..], states).0);
    }
    assert ScanningBody(v, states, c.Passing());
    SplitFirst(c.before, c.todo, c.behind);
  }

  lemma ScanFrees(v: Turn, states: seq<State>, c: Scan)
    requires Scanning(v, states, c) && c.todo != [] && Dead(states, c.todo[0])
    ensures Scanning(v, states, c.Freeing()) && c.Freeing().List() == RemoveAt(c.List(), |c.before|)
  {
    ScanningMeans(v, states, c);
    Carry(c.freed, c.todo[0], Reaped(c.todo[1..], states));
    assert ScanningBody(v, states, c.Freeing());
    DropFirst(c.before, c.todo, c.behind);
  }

  lemma NoneLeft(v: Turn, states: seq<State>, c: Scan)
    requires !c.around && ScanningBody(v, states, c) && c.todo == []
    ensures v.passed + c.before[|v.passed|..] == c.before && c.List() == c.before && Around(v, c).List() == c.before
  {
  }

  lemma ScanTurns(v: Turn, states: seq<State>, c: Scan)
    requires Scanning(v, states, c) && c.todo == [] && SomeReady(v.List(), states)
    ensures !c.around && |v.passed| <= |c.before| && Around(v, c).List() == c.List() == c.before
    ensures Scanning(v, states, Around(v, c)) && v.passed != []
  {
    ScanningMeans(v, states, c);
    SkipFinds(v.ahead, states);
    SkipFinds(v.passed, states);
    NoneLeft(v, states, c);
    assert c.before[|v.passed|..] + [] == c.before[|v.passed|..] && c.freed + [] == c.freed;
    assert [] + Skip(v.passed, states).0 == Skip(v.passed, states).0;
    assert ScanningBody(v, states, Around(v, c));
  }

  lemma MoreAround(v: Turn, states: seq<State>, c: Scan)
    requires Scanning(v, states, c) && SomeReady(v.List(), states)
    ensures c.around ==> c.todo != []
  {
    ScanningMeans(v, states, c);
    SkipFinds(v.ahead, states);
    SkipFinds(v.passed, states);
  }

  lemma ScanEnds(v: Turn, states: seq<State>, c: Scan)
    requires SomeReady(v.List(), states) && Scanning(v, states, c)
    requires c.todo != [] && Ready(states, c.todo[0])
    ensures Dispatched(v, states) == Turn(c.before + [c.todo[0]], c.todo[1..] + c.behind)
    ensures Freed(v, states) == c.freed
  {
    ScanningMeans(v, states, c);
    SkipFinds(v.ahead, states);
    SkipFinds(v.passed, states);
    ReapedAppend(v.ahead, v.passed, states);
    assert c.before + [] == c.before && c.freed + [] == c.freed;
    if !c.around {
      assert v.passed + c.before[|v.passed|..] == c.before;
      assert c.todo[1..] + [] == c.todo[1..];
    }
  }

  /** The node in front of which the scan stands. */
  ghost predicate StandsAt(base: nat, c: Scan, proc: int) {
    proc == (if c.todo == [] then base else c.todo[0]) && (c.around || c.behind == [])
  }

  lemma Positions(base: nat, c: Scan)
    requires c.todo != []
    ensures At(base, c.List(), |c.before| + 1) == c.todo[0] && c.List()[|c.before|] == c.todo[0]
    ensures At(base, c.List(), |c.before| + 2) ==
            if |c.todo| > 1 then c.todo[1] else if c.behind == [] then base else c.behind[0]
  {
  }

  lemma FirstStands(v: Turn, base: nat)
    ensures StandsAt(base, Begun(v), At(base, v.List(), |v.passed| + 1))
  {
  }

  /** The processes that the scheduler knows, with their states; record numbers stand for addresses. */
  class Processor {
    const links: Links
    const state: array<State>
    var current: int
    var forking: bool
    ghost var turn: Turn
    ghost var freed: seq<nat>

    ghost predicate Valid()
      reads this, links, links.next, links.prev
    {
      && links.Valid() && links.count == 1 && state.Length == links.base
      && links.lists[0] == turn.List()
      && current == (if turn.passed == [] then -1 else turn.passed[|turn.passed| - 1])
    }

    /** sched_initialize, for that many process records. */
    constructor (records: nat)
      ensures Valid() && fresh(links) && fresh(links.next) && fresh(links.prev) && fresh(state)
      ensures turn == Turn([], []) && freed == [] && !forking && links.base == records
    {
      links := new Links(records, 1);
      state := new State[records](_ => Unused);
      current := -1;
      forking := false;
      turn := Turn([], []);
      freed := [];
    }

    /** sched_add: in front of all others. */
    method SchedAdd(n: nat)
      requires Valid() && links.Unlinked(n)
      modifies this`turn, links, links.next, links.prev
      ensures Valid() && turn == Added(old(turn), n)
    {
      links.InsertHead(0, n);
      turn := Added(turn, n);
    }

    /** One step of the scan: passes the process it stands at, releases it, or turns around at the sentinel. */
    method Pass(proc: int, ghost v: Turn, ghost c: Scan) returns (proc': int, ghost c': Scan)
      requires links.Valid() && links.count == 1 && state.Length == links.base && links.lists[0] == c.List()
      requires SomeReady(v.List(), state[..]) && Scanning(v, state[..], c) && StandsAt(links.base, c, proc)
      requires proc == links.base || (0 <= proc < state.Length && state[proc] != Running)
      modifies this`freed, links, links.next, links.prev
      ensures links.Valid() && links.lists[0] == c'.List()
      ensures Scanning(v, state[..], c') && StandsAt(links.base, c', proc')
      ensures (c'.around && !c.around) || (c'.around == c.around && |c'.todo| < |c.todo|)
      ensures c.freed <= c'.freed && freed == old(freed) + c'.freed[|c.freed|..]
      ensures 0 <= proc' <= links.base
    {
      assert c.todo != [] ==> c.todo[0] in links.lists[0];
      if proc == links.base {
        ScanTurns(v, state[..], c);
        c' := Around(v, c);
        proc' := links.Next(proc, 0, 0);
      } else {
        Positions(links.base, c);
        proc' := links.Next(proc, 0, |c.before| + 1);
        if state[proc] == Exited {
          ScanFrees(v, state[..], c);
          c' := c.Freeing();
          links.Remove(proc, 0, |c.before|);
          freed := freed + [proc];
        } else {
          ScanPasses(v, state[..], c);
          c' := c.Passing();
        }
        MoreAround(v, state[..], c');
      }
    }

    /** The scan, from the process after the current one on. */
    method Search() returns (proc: int, ghost c: Scan)
      requires Valid() && SomeReady(turn.List(), state[..])
      modifies this`freed, links, links.next, links.prev
      ensures links.Valid() && links.lists[0] == c.List() && Scanning(turn, state[..], c)
      ensures c.todo != [] && c.todo[0] == proc && Ready(state[..], proc)
      ensures freed == old(freed) + c.freed
    {
      c := Begun(turn);
      ScanBegins(turn, state[..]);
      assert turn.passed != [] ==> current in links.lists[0];
      proc := links.Next(if current == -1 then links.base else current, 0, |turn.passed|);
      FirstStands(turn, links.base);
      while proc == links.base || state[proc] != Running
        invariant links.Valid() && links.lists[0] == c.List()
        invariant Scanning(turn, state[..], c) && StandsAt(links.base, c, proc)
        invariant freed == old(freed) + c.freed && 0 <= proc <= links.base
        decreases !c.around, |c.todo|
      {
        ghost var was := c.freed;
        proc, c := Pass(proc, turn, c);
        assert was + c.freed[|was|..] == c.freed;
      }
    }

    /**
     One round of scheduler up to the switch: looks for a process that is ready, from the one after the
     current on, and releases the dead ones on the way.
     */
    method Dispatch()
      requires Valid() && SomeReady(turn.List(), state[..])
      modifies this`current, this`turn, this`freed, links, links.next, links.prev
      ensures Valid() && turn == Dispatched(old(turn), state[..]) && current == Chosen(old(turn), state[..])
      ensures freed == old(freed) + Freed(old(turn), state[..])
    {
      ghost var c;
      current, c := Search();
      ScanEnds(turn, state[..], c);
      turn := Turn(c.before + [c.todo[0]], c.todo[1..] + c.behind);
      SplitFirst(c.before, c.todo, c.behind);
      assert (c.before + [c.todo[0]]) + (c.todo[1..] + c.behind) == (c.before + [c.todo[0]]) + c.todo[1..] + c.behind;
    }

    /** sched_fork: asks for a child at the next switch back. */
    method SchedFork()
      modifies this`forking
      ensures forking
    {
      forking := true;
    }

    /** What the scheduler does after a process has switched back; `child` is what proc_clone would give. */
    method RunTask(child: Child)
      requires Valid() && (child.Forked? ==> links.Unlinked(child.process))
      modifies this`turn, this`forking, links, links.next, links.prev
      ensures Valid() && !forking
      ensures turn == if old(forking) && child.Forked? then Added(old(turn), child.process) else old(turn)
    {
      if forking {
        if child.Forked? {
          SchedAdd(child.process);
        }
        forking := false;
      }
    }
  }
}
