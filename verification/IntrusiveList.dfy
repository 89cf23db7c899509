/**
 The circular doubly linked lists that the kernel threads through its records.
 Nodes are numbered: the nodes below `base` are records, and node `base + k` is
 the sentinel of list `k`. A null link is -1.
 */
module IntrusiveList {

  /** Node number `i` of the ring formed by sentinel `s` and the records `records`. */
  ghost function At(s: nat, records: seq<nat>, i: nat): (n: nat)
    requires i <= |records| + 1
    ensures n == s || n in records
  {
    if i == 0 || i == |records| + 1 then s else records[i - 1]
  }

  ghost predicate Distinct<T>(records: seq<T>) {
    forall i, j :: 0 <= i < j < |records| ==> records[i] != records[j]
  }

  lemma DistinctTail(q: seq<nat>)
    requires Distinct(q) && q != []
    ensures Distinct(q[1..]) && forall n :: n in q[1..] <==> n in q && n != q[0]
  {
    assert q == [q[0]] + q[1..];
  }

  ghost predicate Within(records: seq<nat>, bound: nat) {
    forall i :: 0 <= i < |records| ==> records[i] < bound
  }

  /** Nodes `i` and `i + 1` of the ring point at each other. */
  ghost predicate Linked(next: seq<int>, prev: seq<int>, s: nat, records: seq<nat>, i: nat) {
    && i <= |records|
    && At(s, records, i) < |next| && At(s, records, i + 1) < |prev|
    && next[At(s, records, i)] == At(s, records, i + 1)
    && prev[At(s, records, i + 1)] == At(s, records, i)
  }

  /** The links of sentinel `s` visit exactly `records`, in order, both ways. */
  ghost predicate Ring(next: seq<int>, prev: seq<int>, s: nat, records: seq<nat>) {
    && |next| == |prev|
    && s < |next|
    && (forall n :: n in records ==> n < |next|)
    && (forall i :: 0 <= i <= |records| ==> Linked(next, prev, s, records, i))
  }

  function RemoveAt<T>(records: seq<T>, i: nat): seq<T>
    requires i < |records|
  {
    records[..i] + records[i + 1..]
  }

  /** Writing links of nodes outside a ring leaves the ring alone. */
  lemma RingFrame(next: seq<int>, prev: seq<int>, next': seq<int>, prev': seq<int>, s: nat, records: seq<nat>)
    requires Ring(next, prev, s, records)
    requires |next'| == |next| && |prev'| == |prev|
    requires next'[s] == next[s] && prev'[s] == prev[s]
    requires forall n :: n in records ==> next'[n] == next[n] && prev'[n] == prev[n]
    ensures Ring(next', prev', s, records)
  {
    forall i | 0 <= i <= |records|
      ensures Linked(next', prev', s, records, i)
    {
      assert Linked(next, prev, s, records, i);
    }
  }

  lemma InsertedMembers<T>(records: seq<T>, i: nat, node: T)
    requires i <= |records|
    ensures forall n :: n in records[..i] + [node] + records[i..] <==> n == node || n in records
    ensures Distinct(records) && node !in records ==> Distinct(records[..i] + [node] + records[i..])
  {
    assert forall n :: n in records <==> n in records[..i] || n in records[i..];
  }

  lemma RemovedMembers<T>(records: seq<T>, i: nat)
    requires i < |records| && Distinct(records)
    ensures forall n :: n in RemoveAt(records, i) <==> n != records[i] && n in records
    ensures Distinct(RemoveAt(records, i))
  {
    forall n | n != records[i] && n in records
      ensures n in RemoveAt(records, i)
    {
      var j :| 0 <= j < |records| && records[j] == n;
      assert RemoveAt(records, i)[if j < i then j else j - 1] == n;
    }
  }

  /** Linking `node` between positions `i` and `i + 1` inserts it at index `i`. */
  lemma RingInsert(next: seq<int>, prev: seq<int>, s: nat, records: seq<nat>, i: nat, node: nat)
    requires Ring(next, prev, s, records) && i <= |records|
    requires Distinct(records) && s !in records
    requires node < |next| && node != s && node !in records
    ensures At(s, records, i) < |next| && At(s, records, i + 1) < |next|
    ensures var before := At(s, records, i);
            var after := At(s, records, i + 1);
            Ring(next[node := after][before := node], prev[node := before][after := node],
                 s, records[..i] + [node] + records[i..])
  {
    var before := At(s, records, i);
    var after := At(s, records, i + 1);
    var records' := records[..i] + [node] + records[i..];
    InsertedMembers(records, i, node);
    var next' := next[node := after][before := node];
    var prev' := prev[node := before][after := node];
    forall j | 0 <= j <= |records'| + 1
      ensures At(s, records', j) == if j <= i then At(s, records, j) else if j == i + 1 then node
              else At(s, records, j - 1)
    {
    }
    forall j | 0 <= j <= |records'|
      ensures Linked(next', prev', s, records', j)
    {
      if j < i {
        assert Linked(next, prev, s, records, j);
      } else if j > i + 1 {
        assert Linked(next, prev, s, records, j - 1);
      }
    }
  }

  /** Bypassing the record at index `i` removes it. */
  lemma RingRemove(next: seq<int>, prev: seq<int>, s: nat, records: seq<nat>, i: nat)
    requires Ring(next, prev, s, records) && i < |records|
    requires Distinct(records) && s !in records
    ensures var node := records[i];
            && node < |next| && 0 <= next[node] < |next| && 0 <= prev[node] < |prev|
            && next[node] != node && prev[node] != node
            && next[node] == At(s, records, i + 2) && prev[node] == At(s, records, i)
            && Ring(next[prev[node] := next[node]][node := -1], prev[next[node] := prev[node]][node := -1],
                    s, RemoveAt(records, i))
  {
    var node := records[i];
    assert node == At(s, records, i + 1);
    assert Linked(next, prev, s, records, i) && Linked(next, prev, s, records, i + 1);
    var before := prev[node];
    var after := next[node];
    var records' := RemoveAt(records, i);
    RemovedMembers(records, i);
    var next' := next[before := after][node := -1];
    var prev' := prev[after := before][node := -1];
    forall j | 0 <= j <= |records'| + 1
      ensures At(s, records', j) == if j <= i then At(s, records, j) else At(s, records, j + 1)
      ensures At(s, records', j) != node
    {
    }
    forall j | 0 <= j <= |records'|
      ensures Linked(next', prev', s, records', j)
    {
      if j < i {
        assert Linked(next, prev, s, records, j);
      } else if j > i {
        assert Linked(next, prev, s, records, j + 1);
      }
    }
  }

  /** The nodes a family of lists holds: records below `base`, each in one place only. */
  ghost predicate Separate(base: nat, lists: seq<seq<nat>>) {
    && (forall k, n :: 0 <= k < |lists| && n in lists[k] ==> n < base)
    && (forall k :: 0 <= k < |lists| ==> Distinct(lists[k]))
    && (forall j, k, n :: 0 <= j < k < |lists| && n in lists[j] ==> n !in lists[k])
  }

  ghost predicate Rings(next: seq<int>, prev: seq<int>, base: nat, lists: seq<seq<nat>>) {
    forall k :: 0 <= k < |lists| ==> Ring(next, prev, base + k, lists[k])
  }

  lemma SeparateUpdate(base: nat, lists: seq<seq<nat>>, k: nat, records: seq<nat>)
    requires Separate(base, lists) && k < |lists| && Distinct(records)
    requires forall n :: n in records ==> n < base && forall j :: 0 <= j < |lists| && j != k ==> n !in lists[j]
    ensures Separate(base, lists[k := records])
  {
  }

  /** Rewriting one ring, by writes to its own nodes and to an unlinked one, keeps all the others. */
  lemma RingsUpdate(next: seq<int>, prev: seq<int>, next': seq<int>, prev': seq<int>,
                    base: nat, lists: seq<seq<nat>>, k: nat, records: seq<nat>, node: nat)
    requires |next| == |prev| == |next'| == |prev'| == base + |lists|
    requires Separate(base, lists) && Rings(next, prev, base, lists) && k < |lists|
    requires node < base && forall j :: 0 <= j < |lists| && j != k ==> node !in lists[j]
    requires Ring(next', prev', base + k, records)
    requires forall n :: 0 <= n < |next| && n != base + k && n != node && n !in lists[k] ==>
                           next'[n] == next[n] && prev'[n] == prev[n]
    ensures Rings(next', prev', base, lists[k := records])
  {
    forall j | 0 <= j < |lists| && j != k
      ensures Ring(next', prev', base + j, lists[j])
    {
      RingFrame(next, prev, next', prev', base + j, lists[j]);
    }
  }

  lemma RingsInsert(next: seq<int>, prev: seq<int>, base: nat, lists: seq<seq<nat>>, k: nat, i: nat, node: nat)
    requires |next| == |prev| == base + |lists|
    requires Separate(base, lists) && Rings(next, prev, base, lists)
    requires k < |lists| && i <= |lists[k]|
    requires node < base && forall j :: 0 <= j < |lists| ==> node !in lists[j]
    ensures At(base + k, lists[k], i) < |next| && At(base + k, lists[k], i + 1) < |next|
    ensures var before := At(base + k, lists[k], i);
            var after := At(base + k, lists[k], i + 1);
            var records := lists[k][..i] + [node] + lists[k][i..];
            && Separate(base, lists[k := records])
            && Rings(next[node := after][before := node], prev[node := before][after := node], base,
                     lists[k := records])
  {
    var records := lists[k][..i] + [node] + lists[k][i..];
    InsertedMembers(lists[k], i, node);
    SeparateUpdate(base, lists, k, records);
    assert base + k !in lists[k];
    RingInsert(next, prev, base + k, lists[k], i, node);
    var before := At(base + k, lists[k], i);
    var after := At(base + k, lists[k], i + 1);
    RingsUpdate(next, prev, next[node := after][before := node], prev[node := before][after := node],
                base, lists, k, records, node);
  }

  lemma RingsRemove(next: seq<int>, prev: seq<int>, base: nat, lists: seq<seq<nat>>, k: nat, i: nat)
    requires |next| == |prev| == base + |lists|
    requires Separate(base, lists) && Rings(next, prev, base, lists)
    requires k < |lists| && i < |lists[k]|
    ensures var node := lists[k][i];
            && node < |next| && 0 <= next[node] < |next| && 0 <= prev[node] < |prev|
            && next[node] != node && prev[node] != node
            && var lists' := lists[k := RemoveAt(lists[k], i)];
            && Separate(base, lists')
            && (forall j :: 0 <= j < |lists'| ==> node !in lists'[j])
            && Rings(next[prev[node] := next[node]][node := -1], prev[next[node] := prev[node]][node := -1], base,
                     lists')
  {
    RingRemove(next, prev, base + k, lists[k], i);
    var node := lists[k][i];
    var lists' := lists[k := RemoveAt(lists[k], i)];
    var next' := next[prev[node] := next[node]][node := -1];
    var prev' := prev[next[node] := prev[node]][node := -1];
    RemovedMembers(lists[k], i);
    SeparateUpdate(base, lists, k, RemoveAt(lists[k], i));
    assert node in lists[k];
    RingsUpdate(next, prev, next', prev', base, lists, k, RemoveAt(lists[k], i), node);
  }

  /** A family of intrusive lists over `base` records. */
  class Links {
    const base: nat
    const count: nat
    const next: array<int>
    const prev: array<int>
    ghost var lists: seq<seq<nat>>

    ghost predicate Valid()
      reads this, next, prev
    {
      && next != prev && next.Length == prev.Length == base + count
      && |lists| == count
      && Separate(base, lists)
      && Rings(next[..], prev[..], base, lists)
    }

    ghost function Frame(): set<object> {
      {this, next, prev}
    }

    /** Is the record on no list? */
    ghost predicate Unlinked(node: nat)
      reads this
    {
      node < base && forall k :: 0 <= k < |lists| ==> node !in lists[k]
    }

    /** Makes every sentinel its own neighbour: all lists are empty. */
    constructor (base: nat, count: nat)
      ensures Valid() && fresh(next) && fresh(prev)
      ensures this.base == base && this.count == count
      ensures lists == seq(count, _ => [])
    {
      this.base := base;
      this.count := count;
      next := new int[base + count](i => if i < base then -1 else i);
      prev := new int[base + count](i => if i < base then -1 else i);
      lists := seq(count, _ => []);
    }

    /** The node after a sentinel: the first record, or the sentinel itself when there is none. */
    method First(k: nat) returns (node: int)
      requires Valid() && k < count
      ensures node == if lists[k] == [] then base + k else lists[k][0]
      ensures node == base + k <==> lists[k] == []
    {
      node := next[base + k];
      assert Ring(next[..], prev[..], base + k, lists[k]);
      assert Linked(next[..], prev[..], base + k, lists[k], 0);
      assert lists[k] != [] ==> lists[k][0] in lists[k];
    }

    /** The node after the one at position `i` of a list. */
    method Next(at: nat, ghost k: nat, ghost i: nat) returns (node: int)
      requires Valid() && k < count && i <= |lists[k]| && at == At(base + k, lists[k], i)
      ensures node == At(base + k, lists[k], i + 1)
    {
      assert Ring(next[..], prev[..], base + k, lists[k]);
      assert Linked(next[..], prev[..], base + k, lists[k], i);
      node := next[at];
    }

    /** The node before the one at position `i` of a list. */
    method Prev(at: nat, ghost k: nat, ghost i: nat) returns (node: int)
      requires Valid() && k < count && 1 <= i <= |lists[k]| + 1 && at == At(base + k, lists[k], i)
      ensures node == At(base + k, lists[k], i - 1)
    {
      assert Ring(next[..], prev[..], base + k, lists[k]);
      assert Linked(next[..], prev[..], base + k, lists[k], i - 1);
      node := prev[at];
    }

    /** Links `node` between `at` and its successor, where `at` is at position `i` of list `k`. */
    method InsertAfter(at: nat, node: nat, ghost k: nat, ghost i: nat)
      requires Valid() && k < count && i <= |lists[k]|
      requires at == At(base + k, lists[k], i)
      requires Unlinked(node)
      modifies this, next, prev
      ensures Valid()
      ensures lists == old(lists)[k := old(lists[k])[..i] + [node] + old(lists[k])[i..]]
    {
      ghost var next0, prev0 := next[..], prev[..];
      RingsInsert(next0, prev0, base, lists, k, i, node);
      assert Ring(next0, prev0, base + k, lists[k]);
      assert Linked(next0, prev0, base + k, lists[k], i);
      var after := next[at];
      next[node] := after;
      prev[node] := at;
      prev[after] := node;
      next[at] := node;
      assert next[..] == next0[node := after][at := node];
      assert prev[..] == prev0[node := at][after := node];
      lists := lists[k := lists[k][..i] + [node] + lists[k][i..]];
    }

    method InsertHead(k: nat, node: nat)
      requires Valid() && k < count && Unlinked(node)
      modifies this, next, prev
      ensures Valid()
      ensures lists == old(lists)[k := [node] + old(lists[k])]
    {
      InsertAfter(base + k, node, k, 0);
      assert old(lists[k])[..0] + [node] + old(lists[k])[0..] == [node] + old(lists[k]);
    }

    method InsertTail(k: nat, node: nat)
      requires Valid() && k < count && Unlinked(node)
      modifies this, next, prev
      ensures Valid()
      ensures lists == old(lists)[k := old(lists[k]) + [node]]
    {
      ghost var n := |lists[k]|;
      assert Ring(next[..], prev[..], base + k, lists[k]);
      assert Linked(next[..], prev[..], base + k, lists[k], n);
      InsertAfter(prev[base + k], node, k, n);
      assert old(lists[k])[..n] + [node] + old(lists[k])[n..] == old(lists[k]) + [node];
    }

    /** Unlinks a record from whichever list holds it. */
    method Remove(node: nat, ghost k: nat, ghost i: nat)
      requires Valid() && k < count && i < |lists[k]| && lists[k][i] == node
      modifies this, next, prev
      ensures Valid()
      ensures lists == old(lists)[k := RemoveAt(old(lists[k]), i)]
      ensures Unlinked(node)
    {
      ghost var next0, prev0 := next[..], prev[..];
      RingsRemove(next0, prev0, base, lists, k, i);
      assert node in lists[k];
      var before, after := prev[node], next[node];
      next[before] := after;
      prev[after] := before;
      next[node] := -1;
      prev[node] := -1;
      assert next[..] == next0[before := after][node := -1];
      assert prev[..] == prev0[after := before][node := -1];
      lists := lists[k := RemoveAt(lists[k], i)];
    }
  }
}
