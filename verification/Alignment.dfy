/**
 Powers of two and aligned runs. A run of order `o` is the interval of
 `Pow2(o)` page numbers that starts at a multiple of `Pow2(o)`. Aligned runs
 are laminar: two of them are nested or disjoint.
 */
module Alignment {
  import opened Units

  function Pow2(n: nat): (r: nat)
    ensures r >= 1
  {
    if n == 0 then 1 else 2 * Pow2(n - 1)
  }

  /** Is `a` a multiple of `Pow2(order)`? `AlignedIsMultiple` says so in one step. */
  predicate Aligned(a: nat, order: nat) {
    order == 0 || (a % 2 == 0 && Aligned(a / 2, order - 1))
  }

  /** The run of the same order with which the run at `a` forms a run of the next order. */
  function Buddy(a: nat, order: nat): nat
    requires Aligned(a, order)
  {
    if Aligned(a, order + 1) then a + Pow2(order)
    else
      UpperHalf(a, order);
      a - Pow2(order)
  }

  lemma {:induction false} AlignedIsMultiple(a: nat, order: nat)
    ensures Aligned(a, order) <==> a % Pow2(order) == 0
  {
    if order > 0 {
      AlignedIsMultiple(a / 2, order - 1);
      HalfModulus(a, Pow2(order - 1));
    }
  }

  lemma HalfModulus(a: nat, s: nat)
    requires s > 0
    ensures a % (2 * s) == 0 <==> a % 2 == 0 && (a / 2) % s == 0
  {
    var c := a / (2 * s);
    var d := (a / 2) / s;
    if a % (2 * s) == 0 {
      assert a == 2 * (s * c);
      assert a / 2 == s * c;
      Multiple(a / 2, s, c);
    } else if a % 2 == 0 && (a / 2) % s == 0 {
      assert a / 2 == s * d;
      assert a == (2 * s) * d;
      Multiple(a, 2 * s, d);
    }
  }

  lemma ZeroFactor(s: nat, k: int)
    requires 0 <= s * k < s
    ensures k == 0
  {
    assert k >= 1 ==> s * k >= s;
    assert k <= -1 ==> s * k + s <= 0;
  }

  /** A multiple of `s` leaves no remainder, and its quotient is the factor. */
  lemma Multiple(a: nat, s: nat, q: nat)
    requires s > 0 && a == s * q
    ensures a % s == 0 && a / s == q
  {
    var d := a / s;
    assert s * (q - d) == s * q - s * d == a % s;
    ZeroFactor(s, q - d);
  }

  /** Both halves of a run of the next order are runs; only the lower one keeps the alignment. */
  lemma {:induction false} Halves(a: nat, order: nat)
    requires Aligned(a, order + 1)
    ensures Aligned(a, order) && Aligned(a + Pow2(order), order)
    ensures !Aligned(a + Pow2(order), order + 1)
    decreases order
  {
    if order > 0 {
      Halves(a / 2, order - 1);
      assert (a + Pow2(order)) / 2 == a / 2 + Pow2(order - 1);
    }
  }

  /** A run that is not aligned at the next order is the upper half of one that is. */
  lemma {:induction false} UpperHalf(a: nat, order: nat)
    requires Aligned(a, order) && !Aligned(a, order + 1)
    ensures a >= Pow2(order) && Aligned(a - Pow2(order), order + 1)
    decreases order
  {
    if order > 0 {
      UpperHalf(a / 2, order - 1);
      assert (a - Pow2(order)) / 2 == a / 2 - Pow2(order - 1);
    }
  }

  lemma BuddyProperties(a: nat, order: nat)
    requires Aligned(a, order)
    ensures var b := Buddy(a, order);
            && Aligned(b, order) && Buddy(b, order) == a && b != a
            && Aligned(Min(a, b), order + 1)
            && (a == Min(a, b) ==> b == a + Pow2(order))
            && (b == Min(a, b) ==> a == b + Pow2(order))
  {
    if Aligned(a, order + 1) {
      Halves(a, order);
    } else {
      UpperHalf(a, order);
      Halves(a - Pow2(order), order);
    }
  }

  /** Runs of one order are equal or disjoint. */
  lemma {:induction false} SameOrderDisjoint(a: nat, b: nat, order: nat)
    requires Aligned(a, order) && Aligned(b, order) && a < b
    ensures a + Pow2(order) <= b
    decreases order
  {
    if order > 0 {
      SameOrderDisjoint(a / 2, b / 2, order - 1);
    }
  }

  lemma {:induction false} Pow2Monotone(i: nat, j: nat)
    requires i <= j
    ensures Pow2(i) <= Pow2(j)
    decreases j
  {
    if i < j {
      Pow2Monotone(i, j - 1);
    }
  }

  ghost predicate Nested(a: nat, i: nat, b: nat, j: nat) {
    b <= a && a + Pow2(i) <= b + Pow2(j)
  }

  ghost predicate Disjoint(a: nat, i: nat, b: nat, j: nat) {
    a + Pow2(i) <= b || b + Pow2(j) <= a
  }

  /** Aligned runs are laminar. */
  lemma {:induction false} Laminar(a: nat, i: nat, b: nat, j: nat)
    requires i <= j && Aligned(a, i) && Aligned(b, j)
    ensures Nested(a, i, b, j) || Disjoint(a, i, b, j)
    decreases j - i
  {
    if i == j {
      if a < b {
        SameOrderDisjoint(a, b, i);
      } else if b < a {
        SameOrderDisjoint(b, a, i);
      }
    } else {
      BuddyProperties(a, i);
      Laminar(Min(a, Buddy(a, i)), i + 1, b, j);
    }
  }

  lemma {:induction false} AlignedDown(a: nat, i: nat, j: nat)
    requires i <= j && Aligned(a, j)
    ensures Aligned(a, i)
    decreases j
  {
    if i < j {
      Halves(a, j - 1);
      AlignedDown(a, i, j - 1);
    }
  }
}
