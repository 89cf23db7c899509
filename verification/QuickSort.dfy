/** The library sort: insertion sort up to ten elements, three-way quicksort above. */
module QuickSort {

  ghost predicate Opposite<T>(cmp: (T, T) -> int, x: T, y: T) {
    cmp(x, y) < 0 <==> cmp(y, x) > 0
  }

  ghost predicate Chain<T>(cmp: (T, T) -> int, x: T, y: T, z: T) {
    cmp(x, y) <= 0 && cmp(y, z) <= 0 ==> cmp(x, z) <= 0
  }

  /** What section 7.20.5.2 of ISO C99 asks of a comparison function: a total preorder. */
  ghost predicate Consistent<T(!new)>(cmp: (T, T) -> int) {
    (forall x, y :: Opposite(cmp, x, y)) && (forall x, y, z :: Chain(cmp, x, y, z))
  }

  ghost predicate InOrder<T>(s: seq<T>, i: nat, j: nat, cmp: (T, T) -> int)
    requires i < |s| && j < |s|
  {
    cmp(s[i], s[j]) <= 0
  }

  ghost predicate Sorted<T>(s: seq<T>, lo: nat, hi: nat, cmp: (T, T) -> int)
    requires hi <= |s|
  {
    forall i: nat, j: nat :: lo <= i < j < hi ==> InOrder(s, i, j, cmp)
  }

  /** The elements between `lo` and `hi`, with their multiplicities. */
  ghost function Bag<T>(s: seq<T>, lo: nat, hi: nat): multiset<T>
    requires lo <= hi <= |s|
    decreases hi
  {
    if lo == hi then multiset{} else Bag(s, lo, hi - 1) + multiset{s[hi - 1]}
  }

  lemma {:induction false} BagIsMultiset<T>(s: seq<T>, lo: nat, hi: nat)
    requires lo <= hi <= |s|
    ensures Bag(s, lo, hi) == multiset(s[lo..hi])
    decreases hi
  {
    if lo < hi {
      BagIsMultiset(s, lo, hi - 1);
      assert s[lo..hi] == s[lo..hi - 1] + [s[hi - 1]];
    }
  }

  /** `t` is `s` with the elements between `lo` and `hi` rearranged. */
  ghost predicate Permuted<T>(s: seq<T>, t: seq<T>, lo: nat, hi: nat) {
    && lo <= hi <= |s| == |t|
    && (forall k :: 0 <= k < lo || hi <= k < |s| ==> t[k] == s[k])
    && Bag(t, lo, hi) == Bag(s, lo, hi)
  }

  function Swapped<T>(s: seq<T>, i: nat, j: nat): seq<T>
    requires i < |s| && j < |s|
  {
    s[i := s[j]][j := s[i]]
  }

  lemma SwapPermutes<T>(s0: seq<T>, s: seq<T>, i: nat, j: nat, lo: nat, hi: nat)
    requires Permuted(s0, s, lo, hi) && lo <= i < hi && lo <= j < hi
    ensures Permuted(s0, Swapped(s, i, j), lo, hi)
  {
    var t := Swapped(s, i, j);
    BagIsMultiset(s, lo, hi);
    BagIsMultiset(t, lo, hi);
    assert t[lo..hi] == s[lo..hi][i - lo := s[j]][j - lo := s[i]];
  }

  lemma PermutedTransitive<T>(s: seq<T>, t: seq<T>, u: seq<T>, lo: nat, hi: nat)
    requires Permuted(s, t, lo, hi) && Permuted(t, u, lo, hi)
    ensures Permuted(s, u, lo, hi)
  {
  }

  lemma {:induction false} BagSplit<T>(s: seq<T>, lo: nat, mid: nat, hi: nat)
    requires lo <= mid <= hi <= |s|
    ensures Bag(s, lo, hi) == Bag(s, lo, mid) + Bag(s, mid, hi)
    decreases hi
  {
    if mid < hi {
      BagSplit(s, lo, mid, hi - 1);
    }
  }

  lemma {:induction false} BagSame<T>(s: seq<T>, t: seq<T>, lo: nat, hi: nat)
    requires lo <= hi <= |s| == |t| && forall k :: lo <= k < hi ==> s[k] == t[k]
    ensures Bag(s, lo, hi) == Bag(t, lo, hi)
    decreases hi
  {
    if lo < hi {
      BagSame(s, t, lo, hi - 1);
    }
  }

  lemma PermutedWiden<T>(s: seq<T>, t: seq<T>, lo: nat, hi: nat, l: nat, h: nat)
    requires Permuted(s, t, l, h) && lo <= l && h <= hi <= |s|
    ensures Permuted(s, t, lo, hi)
  {
    BagSame(s, t, lo, l);
    BagSame(s, t, h, hi);
    BagSplit(s, lo, l, hi);
    BagSplit(s, l, h, hi);
    BagSplit(t, lo, l, hi);
    BagSplit(t, l, h, hi);
  }

  /** What holds of all elements of a range holds of them after they are rearranged. */
  lemma PermutedKeeps<T>(s: seq<T>, t: seq<T>, lo: nat, hi: nat, k: nat) returns (j: nat)
    requires Permuted(s, t, lo, hi) && lo <= k < hi
    ensures lo <= j < hi && s[j] == t[k]
  {
    BagIsMultiset(s, lo, hi);
    BagIsMultiset(t, lo, hi);
    assert t[k] == t[lo..hi][k - lo];
    assert t[k] in multiset(t[lo..hi]);
    assert t[k] in s[lo..hi];
    var i :| 0 <= i < |s[lo..hi]| && s[lo..hi][i] == t[k];
    j := lo + i;
  }

  method Swap<T>(a: array<T>, i: nat, j: nat)
    requires i < a.Length && j < a.Length
    modifies a
    ensures a[..] == Swapped(old(a[..]), i, j)
  {
    if i == j {
      return;
    }
    a[i], a[j] := a[j], a[i];
  }

  /** The state of an insertion: sorted, but the element at `j` may be below those to its left. */
  ghost predicate Inserting<T>(s0: seq<T>, s: seq<T>, lo: nat, hi: nat, j: nat, cmp: (T, T) -> int) {
    && Permuted(s0, s, lo, hi) && lo <= j < hi
    && forall p: nat, q: nat :: lo <= p < q < hi && q != j ==> InOrder(s, p, q, cmp)
  }

  lemma InsertStep<T(!new)>(s0: seq<T>, s: seq<T>, lo: nat, hi: nat, j: nat, cmp: (T, T) -> int)
    requires Consistent(cmp) && Inserting(s0, s, lo, hi, j, cmp)
    requires lo < j && cmp(s[j], s[j - 1]) < 0
    ensures Inserting(s0, Swapped(s, j, j - 1), lo, hi, j - 1, cmp)
  {
    var t := Swapped(s, j, j - 1);
    SwapPermutes(s0, s, j, j - 1, lo, hi);
    forall p: nat, q: nat | lo <= p < q < hi && q != j - 1
      ensures InOrder(t, p, q, cmp)
    {
      if q != j {
        assert InOrder(s, if p == j then j - 1 else if p == j - 1 then j else p, q, cmp);
      } else if p < j - 1 {
        assert InOrder(s, p, j - 1, cmp);
      }
    }
  }

  lemma InsertStart<T>(s: seq<T>, lo: nat, i: nat, cmp: (T, T) -> int)
    requires lo <= i < |s| && Sorted(s, lo, i, cmp)
    ensures Inserting(s, s, lo, i + 1, i, cmp)
  {
  }

  lemma InsertDone<T(!new)>(s0: seq<T>, s: seq<T>, lo: nat, hi: nat, j: nat, cmp: (T, T) -> int)
    requires Consistent(cmp) && Inserting(s0, s, lo, hi, j, cmp)
    requires j == lo || cmp(s[j], s[j - 1]) >= 0
    ensures Sorted(s, lo, hi, cmp)
  {
    if lo < j {
      assert Opposite(cmp, s[j - 1], s[j]) && Opposite(cmp, s[j], s[j - 1]);
      forall p: nat | lo <= p < j
        ensures InOrder(s, p, j, cmp)
      {
        assert p < j - 1 ==> InOrder(s, p, j - 1, cmp);
        assert Chain(cmp, s[p], s[j - 1], s[j]);
      }
    }
  }

  /** Positions are counted from the start of the array; qsort counts them from `base`. */
  method InsertSort<T(!new)>(a: array<T>, lo: nat, hi: nat, cmp: (T, T) -> int)
    requires lo <= hi <= a.Length && Consistent(cmp)
    modifies a
    ensures Sorted(a[..], lo, hi, cmp)
    ensures Permuted(old(a[..]), a[..], lo, hi)
  {
    ghost var s0, s := a[..], a[..];
    var i := lo + 1;
    while i < hi
      invariant lo + 1 <= i && (lo < hi ==> i <= hi)
      invariant a[..] == s && Permuted(s0, s, lo, hi)
      invariant lo < hi ==> Sorted(s, lo, i, cmp)
    {
      Insert(a, lo, i, cmp);
      PermutedWiden(s, a[..], lo, hi, lo, i + 1);
      PermutedTransitive(s0, s, a[..], lo, hi);
      s := a[..];
      i := i + 1;
    }
  }

  /** Keeps `StillInserting` closed: what it says is in view only where a key is stated. */
  ghost predicate InsertKey(k: int) {
    true
  }

  ghost predicate StillInserting<T>(s0: seq<T>, s: seq<T>, lo: nat, hi: nat, j: nat, cmp: (T, T) -> int) {
    forall k {:trigger InsertKey(k)} :: InsertKey(k) ==> Inserting(s0, s, lo, hi, j, cmp)
  }

  /** One round of an insertion. */
  method SwapDown<T(!new)>(a: array<T>, ghost s0: seq<T>, ghost lo: nat, ghost hi: nat, j: nat,
                           ghost cmp: (T, T) -> int)
    requires Consistent(cmp) && |s0| == a.Length && StillInserting(s0, a[..], lo, hi, j, cmp)
    requires lo < j < a.Length && cmp(a[j], a[j - 1]) < 0
    modifies a
    ensures StillInserting(s0, a[..], lo, hi, j - 1, cmp)
  {
    assert InsertKey(0);
    InsertStep(s0, a[..], lo, hi, j, cmp);
    Swap(a, j, j - 1);
  }

  /** Moves element `i` down past the elements above it. */
  method Sink<T(!new)>(a: array<T>, lo: nat, i: nat, cmp: (T, T) -> int) returns (ghost j: nat)
    requires lo <= i < a.Length && Consistent(cmp)
    requires Inserting(a[..], a[..], lo, i + 1, i, cmp)
    modifies a
    ensures Inserting(old(a[..]), a[..], lo, i + 1, j, cmp)
    ensures j == lo || cmp(a[j], a[j - 1]) >= 0
  {
    ghost var s0 := a[..];
    var k := i;
    while k > lo && cmp(a[k], a[k - 1]) < 0
      invariant lo <= k <= i
      invariant StillInserting(s0, a[..], lo, i + 1, k, cmp)
    {
      SwapDown(a, s0, lo, i + 1, k, cmp);
      k := k - 1;
    }
    assert InsertKey(0);
    j := k;
  }

  method Insert<T(!new)>(a: array<T>, lo: nat, i: nat, cmp: (T, T) -> int)
    requires lo <= i < a.Length && Consistent(cmp)
    requires Sorted(a[..], lo, i, cmp)
    modifies a
    ensures Sorted(a[..], lo, i + 1, cmp)
    ensures Permuted(old(a[..]), a[..], lo, i + 1)
  {
    InsertStart(a[..], lo, i, cmp);
    ghost var j := Sink(a, lo, i, cmp);
    InsertDone(old(a[..]), a[..], lo, i + 1, j, cmp);
  }

  /** The middle state of the partition: below, equal, above the pivot, and not yet looked at. */
  ghost predicate Partitioned<T>(s: seq<T>, lo: nat, l: nat, g: nat, i: nat, pivot: T, cmp: (T, T) -> int)
    requires lo <= l <= g <= i <= |s|
  {
    forall k: nat :: lo <= k < i ==> InPart(s, k, l, g, pivot, cmp)
  }

  ghost predicate InPart<T>(s: seq<T>, k: nat, l: nat, g: nat, pivot: T, cmp: (T, T) -> int)
    requires k < |s|
  {
    if k < l then cmp(s[k], pivot) < 0 else if k < g then cmp(s[k], pivot) == 0 else cmp(s[k], pivot) > 0
  }

  /** The "below" branch: the element goes to `l`, and one equal to the pivot, if any, comes to `i`. */
  lemma BelowStep<T>(s: seq<T>, lo: nat, l: nat, g: nat, i: nat, pivot: T, cmp: (T, T) -> int)
    requires lo <= l < g <= i < |s| && Partitioned(s, lo, l, g, i, pivot, cmp) && cmp(s[i], pivot) < 0
    ensures Partitioned(Swapped(s, l, i), lo, l + 1, g, i, pivot, cmp)
    ensures cmp(Swapped(s, l, i)[i], pivot) == 0
  {
    var t, l' := Swapped(s, l, i), l + 1;
    assert InPart(s, l, l, g, pivot, cmp);
    forall k: nat | lo <= k < i
      ensures InPart(t, k, l', g, pivot, cmp)
    {
      assert InPart(s, k, l, g, pivot, cmp);
    }
  }

  lemma EqualStep<T>(s: seq<T>, lo: nat, l: nat, g: nat, i: nat, pivot: T, cmp: (T, T) -> int)
    requires lo <= l <= g <= i < |s| && Partitioned(s, lo, l, g, i, pivot, cmp) && cmp(s[i], pivot) == 0
    ensures Partitioned(Swapped(s, g, i), lo, l, g + 1, i + 1, pivot, cmp)
  {
    var t, g' := Swapped(s, g, i), g + 1;
    forall k: nat | lo <= k <= i
      ensures InPart(t, k, l, g', pivot, cmp)
    {
      assert k < i ==> InPart(s, k, l, g, pivot, cmp);
      assert g < i ==> InPart(s, g, l, g, pivot, cmp);
    }
  }

  /**
   qsort on the elements between `lo` and `hi`. The "below" branch of the partition
   advances neither `i` nor `g`: it puts an element equal to the pivot at `i`, so the
   middle may be empty there, but then the next comparison refills it.
   */
  method QSort<T(!new)>(a: array<T>, lo: nat, hi: nat, cmp: (T, T) -> int)
    requires lo <= hi <= a.Length && Consistent(cmp)
    modifies a
    ensures Sorted(a[..], lo, hi, cmp)
    ensures Permuted(old(a[..]), a[..], lo, hi)
    decreases hi - lo
  {
    if hi - lo <= 10 {
      InsertSort(a, lo, hi, cmp);
      return;
    }
    ghost var s0, pivot := a[..], a[lo];
    var l, g := PartitionRange(a, lo, hi, cmp);
    ghost var s1 := a[..];
    QSort(a, lo, l, cmp);
    ghost var s2 := a[..];
    QSort(a, g, hi, cmp);
    JoinSorted(s1, s2, a[..], lo, l, g, hi, pivot, cmp);
    PermutedTransitive(s0, s1, a[..], lo, hi);
  }

  method PartitionRange<T(!new)>(a: array<T>, lo: nat, hi: nat, cmp: (T, T) -> int) returns (l: nat, g: nat)
    requires lo < hi <= a.Length && Consistent(cmp)
    modifies a
    ensures lo <= l < g <= hi
    ensures Partitioned(a[..], lo, l, g, hi, old(a[lo]), cmp)
    ensures Permuted(old(a[..]), a[..], lo, hi)
  {
    ghost var s0, s := a[..], a[..];
    var pivot := a[lo];
    assert Opposite(cmp, pivot, pivot);
    var i := lo + 1;
    l, g := lo, lo + 1;
    while i < hi
      invariant lo <= l <= g <= i <= hi && lo < g && a[..] == s
      invariant Permuted(s0, s, lo, hi)
      invariant Partitioned(s, lo, l, g, i, pivot, cmp)
      invariant l < g || (i < hi && cmp(s[i], pivot) == 0)
      decreases hi - i, g - l
    {
      var result := cmp(a[i], pivot);
      if result < 0 {
        Swap(a, l, i);
        assert a[..] == Swapped(s, l, i);
        BelowStep(s, lo, l, g, i, pivot, cmp);
        SwapPermutes(s0, s, l, i, lo, hi);
        s := Swapped(s, l, i);
        l := l + 1;
      } else if result == 0 {
        Swap(a, g, i);
        assert a[..] == Swapped(s, g, i);
        EqualStep(s, lo, l, g, i, pivot, cmp);
        SwapPermutes(s0, s, g, i, lo, hi);
        s := Swapped(s, g, i);
        g := g + 1;
        i := i + 1;
      } else {
        i := i + 1;
      }
    }
  }

  /** Sorting the outer parts keeps every element in its part. */
  lemma PartKept<T>(s: seq<T>, t: seq<T>, u: seq<T>, lo: nat, l: nat, g: nat, hi: nat, k: nat) returns (j: nat)
    requires l <= g <= hi <= |s| && lo <= k < hi
    requires Permuted(s, t, lo, l) && Permuted(t, u, g, hi)
    ensures lo <= j < hi && u[k] == s[j]
    ensures (k < l <==> j < l) && (k < g <==> j < g)
    ensures k < g ==> u[k] == t[k]
  {
    if k < l {
      j := PermutedKeeps(s, t, lo, l, k);
    } else if k < g {
      j := k;
    } else {
      j := PermutedKeeps(t, u, g, hi, k);
    }
  }

  /** Sorting the part below and the part above the pivot sorts the whole. */
  lemma JoinSorted<T(!new)>(s: seq<T>, t: seq<T>, u: seq<T>, lo: nat, l: nat, g: nat, hi: nat, pivot: T,
                            cmp: (T, T) -> int)
    requires Consistent(cmp) && lo <= l < g <= hi <= |s|
    requires Partitioned(s, lo, l, g, hi, pivot, cmp)
    requires Permuted(s, t, lo, l) && Sorted(t, lo, l, cmp)
    requires Permuted(t, u, g, hi) && Sorted(u, g, hi, cmp)
    ensures Sorted(u, lo, hi, cmp)
    ensures Permuted(s, u, lo, hi)
  {
    PermutedWiden(s, t, lo, hi, lo, l);
    PermutedWiden(t, u, lo, hi, g, hi);
    PermutedTransitive(s, t, u, lo, hi);
    forall k: nat | lo <= k < hi
      ensures InPart(u, k, l, g, pivot, cmp)
    {
      var j := PartKept(s, t, u, lo, l, g, hi, k);
      assert InPart(s, j, l, g, pivot, cmp);
    }
    forall i: nat, j: nat | lo <= i < j < l
      ensures InOrder(u, i, j, cmp)
    {
      assert InOrder(t, i, j, cmp);
    }
    SortedParts(u, lo, l, g, hi, pivot, cmp);
  }

  lemma SortedParts<T(!new)>(u: seq<T>, lo: nat, l: nat, g: nat, hi: nat, pivot: T, cmp: (T, T) -> int)
    requires Consistent(cmp) && lo <= l <= g <= hi <= |u|
    requires Partitioned(u, lo, l, g, hi, pivot, cmp) && Sorted(u, lo, l, cmp) && Sorted(u, g, hi, cmp)
    ensures Sorted(u, lo, hi, cmp)
  {
    forall i: nat, j: nat | lo <= i < j < hi
      ensures InOrder(u, i, j, cmp)
    {
      assert InPart(u, i, l, g, pivot, cmp) && InPart(u, j, l, g, pivot, cmp);
      assert Opposite(cmp, pivot, u[j]) && Opposite(cmp, u[j], pivot) && Chain(cmp, u[i], pivot, u[j]);
    }
  }
}
