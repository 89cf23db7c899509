/** Finite sums of multisets of frame numbers, as page tables and directories contribute them. */
module FrameSums {

  /** The sum of the first `n` multisets. */
  ghost function Sum(parts: seq<multiset<nat>>, n: nat): multiset<nat>
    requires n <= |parts|
  {
    if n == 0 then multiset{} else Sum(parts, n - 1) + parts[n - 1]
  }

  lemma {:induction false} SumOccurs(parts: seq<multiset<nat>>, n: nat, i: nat, f: nat)
    requires i < n <= |parts|
    ensures Sum(parts, n)[f] >= parts[i][f]
    decreases n
  {
    if i < n - 1 {
      SumOccurs(parts, n - 1, i, f);
    }
  }

  lemma {:induction false} SumTwoOccur(parts: seq<multiset<nat>>, n: nat, i: nat, j: nat, f: nat)
    requires i < j < n <= |parts|
    ensures Sum(parts, n)[f] >= parts[i][f] + parts[j][f]
    decreases n
  {
    if j < n - 1 {
      SumTwoOccur(parts, n - 1, i, j, f);
    } else {
      SumOccurs(parts, n - 1, i, f);
    }
  }

  lemma {:induction false} SumSame(parts: seq<multiset<nat>>, parts': seq<multiset<nat>>, n: nat)
    requires n <= |parts| && n <= |parts'|
    requires forall k :: 0 <= k < n ==> parts'[k] == parts[k]
    ensures Sum(parts', n) == Sum(parts, n)
    decreases n
  {
    if n > 0 {
      SumSame(parts, parts', n - 1);
    }
  }

  /** Enlarging one part enlarges the sum by as much. */
  lemma {:induction false} SumGrows(parts: seq<multiset<nat>>, parts': seq<multiset<nat>>, n: nat, i: nat,
                                    more: multiset<nat>)
    requires i < n <= |parts| && n <= |parts'|
    requires parts'[i] == parts[i] + more
    requires forall k :: 0 <= k < n && k != i ==> parts'[k] == parts[k]
    ensures Sum(parts', n) == Sum(parts, n) + more
    decreases n
  {
    if i == n - 1 {
      SumSame(parts, parts', n - 1);
    } else {
      SumGrows(parts, parts', n - 1, i, more);
    }
  }

  /** Parts of equal sizes have sums of equal sizes. */
  lemma {:induction false} SumSize(parts: seq<multiset<nat>>, parts': seq<multiset<nat>>, n: nat)
    requires n <= |parts| && n <= |parts'|
    requires forall k :: 0 <= k < n ==> |parts'[k]| == |parts[k]|
    ensures |Sum(parts', n)| == |Sum(parts, n)|
    decreases n
  {
    if n > 0 {
      SumSize(parts, parts', n - 1);
    }
  }

  lemma {:induction false} SumEmpty(parts: seq<multiset<nat>>, n: nat)
    requires n <= |parts| && forall k :: 0 <= k < n ==> parts[k] == multiset{}
    ensures Sum(parts, n) == multiset{}
    decreases n
  {
    if n > 0 {
      SumEmpty(parts, n - 1);
    }
  }

  lemma {:induction false} SumPrefix(parts: seq<multiset<nat>>, i: nat, n: nat)
    requires i <= n <= |parts|
    ensures Sum(parts, i) <= Sum(parts, n)
    decreases n
  {
    if i < n {
      SumPrefix(parts, i, n - 1);
    }
  }
}
