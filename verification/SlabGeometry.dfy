/** How a slab page is laid out: header, stack of free objects, objects. */
module SlabGeometry {
  import opened Units

  const POINTER_SIZE: nat := 4
  /** The fields before the stack of free objects. */
  const HEADER_SIZE: nat := 24
  const PAYLOAD: nat := PAGE_SIZE - HEADER_SIZE

  /** How many objects of a size fit into a page, each with its pointer. */
  function Limit(size: nat): nat {
    PAYLOAD / (size + POINTER_SIZE)
  }

  /** Sizes of which a page holds at least one object. */
  predicate Fits(size: nat) {
    0 < size <= PAYLOAD - POINTER_SIZE
  }

  /** `size` times a count, written as repeated addition. */
  function Times(size: nat, n: nat): nat {
    if n == 0 then 0 else size + Times(size, n - 1)
  }

  lemma {:induction false} TimesIsProduct(size: nat, n: nat)
    ensures Times(size, n) == size * n
  {
    if n > 0 {
      TimesIsProduct(size, n - 1);
      assert size * n == size * (n - 1) + size;
    }
  }

  lemma {:induction false} TimesAdds(size: nat, m: nat, n: nat)
    requires m <= n
    ensures Times(size, n) == Times(size, m) + Times(size, n - m)
    decreases n
  {
    if m < n {
      TimesAdds(size, m, n - 1);
    }
  }

  /** Where the objects of a page start. */
  function ObjectBase(page: nat, size: nat): (base: nat)
    requires Fits(size)
    ensures page * PAGE_SIZE <= base
  {
    LayoutFits(size);
    page * PAGE_SIZE + PAGE_SIZE - Times(size, Limit(size))
  }

  function Slot(page: nat, size: nat, i: nat): nat
    requires Fits(size)
  {
    ObjectBase(page, size) + Times(size, i)
  }

  /** Header, pointers and objects fit into the page, and there is at least one object. */
  lemma LayoutFits(size: nat)
    requires Fits(size)
    ensures Limit(size) >= 1
    ensures HEADER_SIZE + Times(POINTER_SIZE, Limit(size)) + Times(size, Limit(size)) <= PAGE_SIZE
  {
    var n := Limit(size);
    TimesIsProduct(size, n);
    TimesIsProduct(POINTER_SIZE, n);
    assert (size + POINTER_SIZE) * n == size * n + POINTER_SIZE * n;
    Quotient(PAYLOAD, size + POINTER_SIZE);
  }

  /** As many objects are in a page as can be, each with its pointer, and they end where it ends. */
  lemma LimitExact(page: nat, size: nat, n: nat)
    requires Fits(size)
    ensures HEADER_SIZE + (POINTER_SIZE + size) * n <= PAGE_SIZE <==> n <= Limit(size)
    ensures Slot(page, size, Limit(size)) == (page + 1) * PAGE_SIZE
  {
    InQuotient(PAYLOAD, size + POINTER_SIZE, n);
  }

  lemma InQuotient(a: nat, b: nat, n: nat)
    requires b > 0
    ensures b * n <= a <==> n <= a / b
  {
    var q, r := a / b, a % b;
    assert a == b * q + r && r < b;
    if n <= q {
      Larger(b, n, q);
    } else {
      Larger(b, q + 1, n);
    }
  }

  lemma Larger(b: nat, m: nat, n: nat)
    requires m <= n
    ensures b * m <= b * n
  {
  }

  lemma Quotient(a: nat, b: nat)
    requires 0 < b <= a
    ensures b * (a / b) <= a && a / b >= 1
  {
    var q := a / b;
    assert b * q + a % b == a && b * q > 0;
    assert q <= 0 ==> b * q <= 0;
  }

  /** Every object lies in its page, after the header and the pointers; masking finds the page. */
  lemma SlotInPage(page: nat, size: nat, i: nat)
    requires Fits(size) && i < Limit(size)
    ensures page * PAGE_SIZE + HEADER_SIZE + Times(POINTER_SIZE, Limit(size)) <= Slot(page, size, i)
    ensures Slot(page, size, i) + size <= (page + 1) * PAGE_SIZE
    ensures Slot(page, size, i) / PAGE_SIZE == page
  {
    LayoutFits(size);
    TimesAdds(size, i + 1, Limit(size));
    var offset := Slot(page, size, i) - page * PAGE_SIZE;
    assert 0 <= offset < PAGE_SIZE;
  }

  /** Different objects of a page do not overlap. */
  lemma SlotsApart(page: nat, size: nat, i: nat, j: nat)
    requires Fits(size) && i < j
    ensures Slot(page, size, i) + size <= Slot(page, size, j)
  {
    TimesAdds(size, i + 1, j);
  }

  /** Objects of a size that is a multiple of an alignment the page has are aligned. */
  lemma SlotAligned(page: nat, size: nat, i: nat, align: nat)
    requires Fits(size) && align > 0 && size % align == 0 && PAGE_SIZE % align == 0 && i < Limit(size)
    ensures Slot(page, size, i) % align == 0
  {
    var n, end := Limit(size), (page + 1) * PAGE_SIZE;
    LayoutFits(size);
    TimesAdds(size, i, n);
    TimesIsProduct(PAGE_SIZE, page + 1);
    TimesAligned(PAGE_SIZE, page + 1, align);
    TimesAligned(size, n - i, align);
    SummandAligned(Slot(page, size, i), Times(size, n - i), align);
  }

  lemma {:induction false} TimesAligned(size: nat, n: nat, align: nat)
    requires align > 0 && size % align == 0
    ensures Times(size, n) % align == 0
  {
    if n > 0 {
      TimesAligned(size, n - 1, align);
      SumRemainder(Times(size, n - 1), size, align);
    }
  }

  /** Adding a multiple of `align` does not change the remainder. */
  lemma SumRemainder(a: nat, b: nat, align: nat)
    requires align > 0 && b % align == 0
    ensures (a + b) % align == a % align
  {
    var k := a / align + b / align - (a + b) / align;
    assert align * k == (a + b) % align - a % align;
    assert k >= 1 ==> align * k >= align;
    assert k <= -1 ==> align * k + align <= 0;
  }

  lemma SummandAligned(a: nat, b: nat, align: nat)
    requires align > 0 && b % align == 0 && (a + b) % align == 0
    ensures a % align == 0
  {
    SumRemainder(a, b, align);
  }
}
