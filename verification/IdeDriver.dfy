/** The DMA request queues of the two IDE buses. */
module IdeDriver {
  import opened IntrusiveList
  import opened RequestQueue

  const BUSES: nat := 2
  const DRIVES: nat := 4

  lemma ListsWithin(lists: seq<seq<nat>>, base: nat)
    requires Separate(base, lists)
    ensures forall k :: 0 <= k < |lists| ==> Within(lists[k], base)
  {
    forall k, i | 0 <= k < |lists| && 0 <= i < |lists[k]|
      ensures lists[k][i] < base
    {
      assert lists[k][i] in lists[k];
    }
  }

  /** What is known of the records with these numbers. */
  ghost function Waiting(requests: seq<Request>, retry: seq<bool>, records: seq<nat>): (q: seq<Pending>)
    requires |requests| == |retry| && Within(records, |requests|)
    ensures |q| == |records| && forall i :: 0 <= i < |q| ==> q[i] == Pending(requests[records[i]], retry[records[i]])
  {
    seq(|records|, i requires 0 <= i < |records| => Pending(requests[records[i]], retry[records[i]]))
  }

  /** Writing a record that is not on the list. */
  lemma WaitingFrame(requests: seq<Request>, retry: seq<bool>, records: seq<nat>, node: nat, r: Request, again: bool)
    requires |requests| == |retry| && node < |requests| && node !in records && Within(records, |requests|)
    ensures Waiting(requests[node := r], retry[node := again], records) == Waiting(requests, retry, records)
  {
  }

  lemma WaitingMore(requests: seq<Request>, retry: seq<bool>, records: seq<nat>, node: nat)
    requires |requests| == |retry| && node < |requests| && Within(records, |requests|)
    ensures Waiting(requests, retry, records + [node])
            == Waiting(requests, retry, records) + [Pending(requests[node], retry[node])]
  {
  }

  lemma WaitingLess(requests: seq<Request>, retry: seq<bool>, records: seq<nat>)
    requires |requests| == |retry| && records != [] && Within(records, |requests|)
    ensures Within(RemoveAt(records, 0), |requests|)
    ensures Waiting(requests, retry, RemoveAt(records, 0)) == Waiting(requests, retry, records)[1..]
  {
  }

  lemma WaitingRetried(requests: seq<Request>, retry: seq<bool>, records: seq<nat>)
    requires |requests| == |retry| && records != [] && Distinct(records) && Within(records, |requests|)
    ensures var q := Waiting(requests, retry, records);
            Waiting(requests, retry[records[0] := true], records) == [q[0].(retried := true)] + q[1..]
  {
  }

  /** The queues of all buses; a record is a request that waits, linked into the list of its bus. */
  class Ide {
    const links: Links
    const requests: array<Request>
    const retry: array<bool>
    ghost var histories: seq<History>

    ghost predicate Valid()
      reads this, links, links.next, links.prev, requests, retry
    {
      && links.Valid() && links.count == BUSES
      && requests.Length == retry.Length == links.base
      && |histories| == BUSES
    }

    ghost function Frame(): set<object> {
      {this, links, links.next, links.prev, requests, retry}
    }

    ghost function Bus(bus: nat): Bus
      requires Valid() && bus < BUSES
      reads this, links, links.next, links.prev, requests, retry
    {
      ListsWithin(links.lists, links.base);
      RequestQueue.Bus(Waiting(requests[..], retry[..], links.lists[bus]), histories[bus])
    }

    /** initialize_io_data, with room for `pool` requests. */
    constructor (pool: nat, r: Request)
      ensures Valid() && fresh(links) && fresh(links.next) && fresh(links.prev) && fresh(requests) && fresh(retry)
      ensures links.base == pool && Bus(0) == FRESH && Bus(1) == FRESH
    {
      links := new Links(pool, BUSES);
      requests := new Request[pool](_ => r);
      retry := new bool[pool](_ => false);
      histories := [FRESH.history, FRESH.history];
    }

    /** start_io_operation: the drive is given the request. */
    ghost method StartIo(bus: nat, r: Request, ticket: nat)
      requires bus < |histories|
      modifies this`histories
      ensures histories == old(histories)[bus := Started(old(histories)[bus], r, ticket)]
    {
      histories := histories[bus := Started(histories[bus], r, ticket)];
    }

    /** dma_io_sectors, with the record that the slab allocator returned. */
    method DmaIoSectors(io: Io, command: Command, node: nat)
      requires Valid() && io.drive < DRIVES && links.Unlinked(node)
      modifies this, links, links.next, links.prev, requests, retry
      ensures Valid()
      ensures Bus(io.drive / 2) == Step(old(Bus(io.drive / 2)), Submit(Request(io, command)))
      ensures Bus(1 - io.drive / 2) == old(Bus(1 - io.drive / 2))
      ensures links.lists[io.drive / 2] == old(links.lists[io.drive / 2]) + [node]
    {
      var bus := io.drive / 2;
      var r := Request(io, command);
      ghost var rs, again := requests[..], retry[..];
      ghost var lists := links.lists;
      ListsWithin(lists, links.base);
      WaitingFrame(rs, again, lists[0], node, r, false);
      WaitingFrame(rs, again, lists[1], node, r, false);
      WaitingMore(rs[node := r], again[node := false], lists[bus], node);
      requests[node] := r;
      retry[node] := false;
      assert requests[..] == rs[node := r] && retry[..] == again[node := false];
      var first := links.First(bus);
      ghost var ticket := |histories[bus].submitted|;
      histories := histories[bus := histories[bus].(submitted := histories[bus].submitted + [r])];
      if first == links.base + bus {
        StartIo(bus, r, ticket);
      }
      links.InsertTail(bus, node);
    }

    /** complete_io_operation: unlinks the head, starts the next request and runs the callback. */
    method CompleteIoOperation(bus: nat, node: nat, error: bool)
      requires Valid() && bus < BUSES && links.lists[bus] != [] && links.lists[bus][0] == node
      modifies this, links, links.next, links.prev
      ensures Valid() && links.Unlinked(node)
      ensures Bus(bus) == Completed(old(Bus(bus)), error)
      ensures Bus(1 - bus) == old(Bus(1 - bus))
    {
      ghost var lists := links.lists;
      assert node in links.lists[bus];
      var r := requests[node];
      ListsWithin(links.lists, links.base);
      WaitingLess(requests[..], retry[..], lists[bus]);
      links.Remove(node, bus, 0);
      ghost var h := histories[bus];
      histories := histories[bus := h.(failed := h.failed + [error], calls := h.calls + [Call(r, error)])];
      var first := links.First(bus);
      if first != links.base + bus {
        assert first in links.lists[bus];
        StartIo(bus, requests[first], |h.calls| + 1);
      }
    }

    /** check_if_io_complete, for the status that the bus master reports. */
    method CheckIfIoComplete(bus: nat, status: nat)
      requires Valid() && bus < BUSES
      modifies this, links, links.next, links.prev, retry
      ensures Valid()
      ensures Bus(bus) == Step(old(Bus(bus)), Poll(status))
      ensures Bus(1 - bus) == old(Bus(1 - bus))
    {
      var node := links.First(bus);
      if node != links.base + bus {
        assert node == links.lists[bus][0] && node in links.lists[bus];
        if ErrorBit(status) {
          if !retry[node] {
            RetryHead(bus, node);
          } else {
            CompleteIoOperation(bus, node, true);
          }
        } else if !ActiveBit(status) {
          CompleteIoOperation(bus, node, false);
        }
      }
    }

    method RetryHead(bus: nat, node: nat)
      requires Valid() && bus < BUSES && links.lists[bus] != [] && links.lists[bus][0] == node
      modifies this`histories, retry
      ensures Valid()
      ensures Bus(bus) == Retried(old(Bus(bus))) && Bus(1 - bus) == old(Bus(1 - bus))
    {
      ghost var again := retry[..];
      ghost var h := histories[bus];
      ListsWithin(links.lists, links.base);
      WaitingRetried(requests[..], again, links.lists[bus]);
      assert node in links.lists[bus];
      WaitingFrame(requests[..], again, links.lists[1 - bus], node, requests[node], true);
      assert requests[..][node := requests[node]] == requests[..];
      retry[node] := true;
      assert retry[..] == again[node := true];
      histories := histories[bus := h.(failed := h.failed + [true])];
      StartIo(bus, requests[node], |h.calls|);
    }

    /** task_function: looks at both buses. */
    method TaskFunction(status0: nat, status1: nat)
      requires Valid()
      modifies this, links, links.next, links.prev, retry
      ensures Valid()
      ensures Bus(0) == Step(old(Bus(0)), Poll(status0)) && Bus(1) == Step(old(Bus(1)), Poll(status1))
    {
      CheckIfIoComplete(0, status0);
      CheckIfIoComplete(1, status1);
    }
  }
}
