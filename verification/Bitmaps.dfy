/** Bitmap blocks: bit 0 is the highest bit of the first byte. */
module Bitmaps {
  import opened Alignment
  import opened Bytes
  import opened DirectoryBlock
  import opened ImageFile

  const BITS: nat := 8

  // ----- bits of numbers, from the lowest

  /** Is bit `k` set, counted from the lowest? */
  predicate LowBit(x: nat, k: nat) {
    if k == 0 then x % 2 == 1 else LowBit(x / 2, k - 1)
  }

  /** The number with bit `k` set. */
  function WithLowBit(x: nat, k: nat): nat
    decreases k
  {
    if k == 0 then x / 2 * 2 + 1 else 2 * WithLowBit(x / 2, k - 1) + x % 2
  }

  lemma {:induction false} WithLowBitSets(x: nat, k: nat, j: nat)
    ensures LowBit(WithLowBit(x, k), j) <==> LowBit(x, j) || j == k
    decreases k
  {
    var y := WithLowBit(x, k);
    if k == 0 {
      assert y / 2 == x / 2;
    } else {
      assert y / 2 == WithLowBit(x / 2, k - 1) && y % 2 == x % 2;
      if j > 0 {
        WithLowBitSets(x / 2, k - 1, j - 1);
      }
    }
  }

  lemma HalfFits(x: nat, n: nat)
    requires n > 0
    ensures x / 2 < Pow2(n - 1) <==> x < Pow2(n)
  {
  }

  lemma {:induction false} WithLowBitFits(x: nat, k: nat, n: nat)
    requires x < Pow2(n) && k < n
    ensures WithLowBit(x, k) < Pow2(n)
    decreases k
  {
    if k > 0 {
      HalfFits(x, n);
      WithLowBitFits(x / 2, k - 1, n - 1);
    }
  }

  predicate AllSet(x: nat, n: nat) {
    n == 0 || (x % 2 == 1 && AllSet(x / 2, n - 1))
  }

  lemma {:induction false} AllSetBit(x: nat, n: nat, k: nat)
    requires AllSet(x, n) && k < n
    ensures LowBit(x, k)
    decreases n
  {
    if k > 0 {
      AllSetBit(x / 2, n - 1, k - 1);
    }
  }

  lemma {:induction false} ClearBit(x: nat, n: nat) returns (k: nat)
    requires !AllSet(x, n)
    ensures k < n && !LowBit(x, k)
    decreases n
  {
    if x % 2 == 0 {
      k := 0;
    } else {
      k := ClearBit(x / 2, n - 1);
      k := k + 1;
    }
  }

  /** All of `n` bits are set exactly in the largest `n`-bit number. */
  lemma {:induction false} AllOnes(x: nat, n: nat)
    requires x < Pow2(n)
    ensures x == Pow2(n) - 1 <==> AllSet(x, n)
    decreases n
  {
    if n > 0 {
      AllOnes(x / 2, n - 1);
    }
  }

  lemma ByteIsEightBits()
    ensures Pow2(BITS) == 256
  {
    assert Pow2(2) == 4;
    assert Pow2(4) == 16;
    assert Pow2(6) == 64;
  }

  // ----- bits of bytes, from the highest

  /** Is bit `b` of a byte set, counted from the highest? */
  predicate BitOf(x: Byte, b: nat)
    requires b < BITS
  {
    LowBit(x as nat, BITS - 1 - b)
  }

  /** The byte with that bit set. */
  function WithBit(x: Byte, b: nat): Byte
    requires b < BITS
  {
    ByteIsEightBits();
    WithLowBitFits(x as nat, BITS - 1 - b, BITS);
    WithLowBit(x as nat, BITS - 1 - b) as Byte
  }

  lemma WithBitSets(x: Byte, b: nat, c: nat)
    requires b < BITS && c < BITS
    ensures BitOf(WithBit(x, b), c) <==> BitOf(x, c) || c == b
  {
    WithLowBitSets(x as nat, BITS - 1 - b, BITS - 1 - c);
  }

  lemma FullByte(x: Byte)
    ensures x == 0xFF <==> forall b: nat :: b < BITS ==> BitOf(x, b)
  {
    ByteIsEightBits();
    AllOnes(x as nat, BITS);
    if AllSet(x as nat, BITS) {
      forall b: nat | b < BITS
        ensures BitOf(x, b)
      {
        AllSetBit(x as nat, BITS, BITS - 1 - b);
      }
    } else {
      var k := ClearBit(x as nat, BITS);
      assert !BitOf(x, BITS - 1 - k);
    }
  }

  // ----- bitmaps

  /** Bit `i` of a bitmap; bits past its end read as set. */
  predicate Bit(bitmap: seq<Byte>, i: nat) {
    i / BITS < |bitmap| ==> BitOf(bitmap[i / BITS], i % BITS)
  }

  /** How many of the first `n` bits are clear. */
  ghost function Clear(bitmap: seq<Byte>, n: nat): (c: nat)
    ensures c <= n
  {
    if n == 0 then 0 else Clear(bitmap, n - 1) + if Bit(bitmap, n - 1) then 0 else 1
  }

  /** Only bit `i` changed, and it is set. */
  ghost predicate BitSet(before: seq<Byte>, after: seq<Byte>, i: nat) {
    forall j: nat :: Bit(after, j) <==> Bit(before, j) || j == i
  }

  lemma SetInByte(bitmap: seq<Byte>, i: nat)
    requires i / BITS < |bitmap|
    ensures BitSet(bitmap, bitmap[i / BITS := WithBit(bitmap[i / BITS], i % BITS)], i)
  {
    var after := bitmap[i / BITS := WithBit(bitmap[i / BITS], i % BITS)];
    forall j: nat
      ensures Bit(after, j) <==> Bit(bitmap, j) || j == i
    {
      if j / BITS == i / BITS {
        WithBitSets(bitmap[i / BITS], i % BITS, j % BITS);
      }
    }
  }

  lemma {:induction false} ClearAfterSet(before: seq<Byte>, after: seq<Byte>, i: nat, n: nat)
    requires BitSet(before, after, i)
    ensures Clear(after, n) == Clear(before, n) - if i < n && !Bit(before, i) then 1 else 0
    decreases n
  {
    if n > 0 {
      ClearAfterSet(before, after, i, n - 1);
    }
  }

  lemma {:induction false} SomeClear(bitmap: seq<Byte>, n: nat) returns (i: nat)
    requires Clear(bitmap, n) > 0
    ensures i < n && !Bit(bitmap, i)
    decreases n
  {
    if Bit(bitmap, n - 1) {
      i := SomeClear(bitmap, n - 1);
    } else {
      i := n - 1;
    }
  }

  lemma {:induction false} SomeClearCounts(bitmap: seq<Byte>, n: nat, i: nat)
    requires i < n && !Bit(bitmap, i)
    ensures Clear(bitmap, n) > 0
    decreases n
  {
    if i < n - 1 {
      SomeClearCounts(bitmap, n - 1, i);
    }
  }

  ghost predicate FirstClear(bitmap: seq<Byte>, i: nat) {
    !Bit(bitmap, i) && forall j: nat :: j < i ==> Bit(bitmap, j)
  }

  /**
   The search that both allocators make: full bytes are skipped, and in the first that is not full
   the first clear bit is found. A bitmap that is all ones has none.
   */
  method FindClear(bitmap: seq<Byte>) returns (found: bool, i: nat)
    ensures found ==> i < BITS * |bitmap| && FirstClear(bitmap, i)
    ensures !found ==> forall j: nat :: Bit(bitmap, j)
  {
    found, i := false, 0;
    var k := 0;
    while k < |bitmap|
      invariant 0 <= k <= |bitmap| && forall j: nat :: j < BITS * k ==> Bit(bitmap, j)
    {
      FullByte(bitmap[k]);
      if bitmap[k] != 0xFF {
        var b := ClearBitOf(bitmap[k]);
        i := b + k * BITS;
        FoundBit(bitmap, k, b);
        return true, i;
      }
      FullByteBits(bitmap, k);
      k := k + 1;
    }
  }

  lemma FoundBit(bitmap: seq<Byte>, k: nat, b: nat)
    requires k < |bitmap| && b < BITS && !BitOf(bitmap[k], b) && forall c: nat :: c < b ==> BitOf(bitmap[k], c)
    requires forall j: nat :: j < BITS * k ==> Bit(bitmap, j)
    ensures FirstClear(bitmap, b + k * BITS)
  {
    forall j: nat | j < b + k * BITS
      ensures Bit(bitmap, j)
    {
      if j >= BITS * k {
        assert j / BITS == k;
      }
    }
  }

  lemma FullByteBits(bitmap: seq<Byte>, k: nat)
    requires k < |bitmap| && forall b: nat :: b < BITS ==> BitOf(bitmap[k], b)
    requires forall j: nat :: j < BITS * k ==> Bit(bitmap, j)
    ensures forall j: nat :: j < BITS * (k + 1) ==> Bit(bitmap, j)
  {
    forall j: nat | BITS * k <= j < BITS * (k + 1)
      ensures Bit(bitmap, j)
    {
      assert j / BITS == k;
    }
  }

  /** The inner loop: the first clear bit of a byte that is not full. */
  method ClearBitOf(x: Byte) returns (b: nat)
    requires x != 0xFF
    ensures b < BITS && !BitOf(x, b) && forall c: nat :: c < b ==> BitOf(x, c)
  {
    FullByte(x);
    b := 0;
    while BitOf(x, b)
      invariant b < BITS && forall c: nat :: c < b ==> BitOf(x, c)
      decreases BITS - b
    {
      b := b + 1;
    }
  }
}
