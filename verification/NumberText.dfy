/** Numbers written in a base, and read back. */
module NumberText {
  import opened Bytes

  predicate IsBase(base: nat) {
    2 <= base <= 16
  }

  function DigitChar(d: nat): (c: char)
    requires d < 16
    ensures DigitValue(c) == d && c != '\0'
  {
    if d < 10 then '0' + d as char else 'A' + (d - 10) as char
  }

  function DigitValue(c: char): int {
    if '0' <= c <= '9' then (c - '0') as int else if 'A' <= c <= 'F' then (c - 'A') as int + 10 else -1
  }

  lemma Multiple(a: nat, b: nat, c: nat)
    requires a <= b
    ensures a * c <= b * c
  {
  }

  lemma QuotientBounds(v: nat, base: nat, q: int, r: int)
    requires base >= 2 && q * base + r == v && 0 <= r < base
    ensures q >= 0 && (v < base ==> q == 0 && r == v) && (v >= base ==> 0 < q < v)
  {
    if q > 0 {
      Multiple(2, base, q);
      Multiple(1, q, base);
    }
  }

  /** The number without its last digit. */
  function Rest(v: nat, base: nat): (q: nat)
    requires base >= 2
    ensures v < base ==> q == 0 && v % base == v
    ensures v >= base ==> 0 < q < v
    ensures q * base + v % base == v && 0 <= v % base < base
  {
    var q, r := v / base, v % base;
    assert q * base + r == v;
    QuotientBounds(v, base, q, r);
    q
  }

  /** The digits of a number, the most significant first. */
  function Digits(v: nat, base: nat): (s: string)
    requires IsBase(base)
    ensures |s| >= 1
    decreases v
  {
    if v < base then [DigitChar(v)] else Digits(Rest(v, base), base) + [DigitChar(v % base)]
  }

  /** What the digits stand for. */
  function Value(s: string, base: nat): int {
    if s == [] then 0 else Value(s[..|s| - 1], base) * base + DigitValue(s[|s| - 1])
  }

  lemma {:induction false} ReadsBack(v: nat, base: nat)
    requires IsBase(base)
    ensures Value(Digits(v, base), base) == v
    decreases v
  {
    if v < base {
      assert Digits(v, base)[..0] == [];
    } else {
      ReadsBack(Rest(v, base), base);
      var s := Digits(Rest(v, base), base);
      assert (s + [DigitChar(v % base)])[..|s|] == s;
    }
  }

  /** No zero in front of other digits, and digits of the base only. */
  lemma {:induction false} Canonical(v: nat, base: nat)
    requires IsBase(base)
    ensures forall i :: 0 <= i < |Digits(v, base)| ==> 0 <= DigitValue(Digits(v, base)[i]) < base
    ensures Digits(v, base)[0] == '0' ==> v == 0
    decreases v
  {
    if v >= base {
      Canonical(Rest(v, base), base);
      assert Rest(v, base) > 0;
    }
  }

  function Power(base: nat, n: nat): nat {
    if n == 0 then 1 else base * Power(base, n - 1)
  }

  /** A number below a power of the base has no more digits than that. */
  lemma {:induction false} DigitsBounded(v: nat, base: nat, n: nat)
    requires IsBase(base) && n >= 1 && v < Power(base, n)
    ensures |Digits(v, base)| <= n
    decreases n
  {
    if v >= base {
      assert n > 1;
      Below(v, base, Power(base, n - 1));
      DigitsBounded(Rest(v, base), base, n - 1);
    }
  }

  lemma Below(v: nat, base: nat, p: nat)
    requires base >= 2 && v < base * p
    ensures Rest(v, base) < p
  {
    Cancel(base, Rest(v, base), p);
  }

  lemma Cancel(base: nat, a: nat, b: nat)
    requires base * a < base * b
    ensures a < b
  {
  }

  lemma {:induction false} PowerGrows(base: nat, n: nat)
    requires base >= 2
    ensures Power(2, n) <= Power(base, n)
  {
    if n > 0 {
      PowerGrows(base, n - 1);
    }
  }

  /** 32 digits always suffice. */
  lemma WordDigits(v: nat, base: nat)
    requires IsBase(base) && v < WORD
    ensures |Digits(v, base)| <= 32
  {
    PowerGrows(base, 32);
    TwoToTheWord();
    DigitsBounded(v, base, 32);
  }

  lemma TwoToTheWord()
    ensures Power(2, 32) == WORD
  {
    assert Power(2, 8) == 256;
    assert Power(2, 16) == 0x1_0000;
    assert Power(2, 24) == 0x100_0000;
  }

  /** A signed number, with its sign in base 10 and as an unsigned word in the others. */
  function SignedText(i: int, base: nat): string
    requires IsBase(base)
  {
    if base == 10 && i < 0 then "-" + Digits(-i, base) else Digits(i % WORD, base)
  }

  /** Reading such a text. */
  function SignedValue(s: string): int {
    if s != [] && s[0] == '-' then -Value(s[1..], 10) else Value(s, 10)
  }

  lemma SignedReadsBack(i: int)
    requires -0x8000_0000 <= i < 0x8000_0000
    ensures SignedValue(SignedText(i, 10)) == i
  {
    if i < 0 {
      ReadsBack(-i, 10);
      Minus(Digits(-i, 10));
    } else {
      ReadsBack(i, 10);
      Canonical(i, 10);
      Plain(Digits(i, 10));
    }
  }

  lemma Minus(s: string)
    ensures SignedValue("-" + s) == -Value(s, 10)
  {
    assert ("-" + s)[1..] == s;
  }

  lemma Plain(s: string)
    requires s != [] && DigitValue(s[0]) >= 0
    ensures SignedValue(s) == Value(s, 10)
  {
  }

  // ----- the conversion

  function Reversed(s: string): string {
    if s == [] then [] else Reversed(s[1..]) + [s[0]]
  }

  lemma {:induction false} ReversedAppend(s: string, c: char)
    ensures Reversed(s + [c]) == [c] + Reversed(s)
  {
    if s != [] {
      assert (s + [c])[1..] == s[1..] + [c];
      ReversedAppend(s[1..], c);
    } else {
      assert (s + [c])[1..] == [];
    }
  }

  lemma {:induction false} ReversedAt(s: string)
    ensures |Reversed(s)| == |s| && forall k :: 0 <= k < |s| ==> Reversed(s)[k] == s[|s| - 1 - k]
  {
    if s != [] {
      ReversedAt(s[1..]);
    }
  }

  /** reverse: the first `len` characters, in place. */
  method Reverse(buf: array<char>, len: nat)
    requires len <= buf.Length
    modifies buf
    ensures buf[..] == Reversed(old(buf[..len])) + old(buf[len..])
  {
    ghost var was := buf[..len];
    var l, h := 0, len - 1;
    while l < h
      invariant 0 <= l && h == len - 1 - l && l <= h + 2
      invariant forall k :: 0 <= k < l || h < k < len ==> buf[k] == old(buf[len - 1 - k])
      invariant forall k :: l <= k <= h ==> buf[k] == old(buf[k])
      invariant buf[len..] == old(buf[len..])
    {
      buf[l], buf[h] := buf[h], buf[l];
      l, h := l + 1, h - 1;
    }
    ReversedAt(was);
    assert buf[..len] == Reversed(was);
    assert buf[..] == buf[..len] + buf[len..];
  }

  /** `from` with `text` written over it at `at`. */
  function Written(from: seq<char>, at: nat, text: string): (s: seq<char>)
    requires at + |text| <= |from|
    ensures |s| == |from|
  {
    from[..at] + text + from[at + |text|..]
  }

  /** What is left of a number behind its last digit. */
  function Ahead(v: nat, base: nat): string
    requires IsBase(base)
  {
    if v == 0 then [] else Digits(v, base)
  }

  lemma LastDigit(v: nat, base: nat)
    requires IsBase(base)
    ensures Digits(v, base) == Ahead(Rest(v, base), base) + [DigitChar(v % base)]
  {
  }

  lemma DigitMoves(digits: string, ahead: string, c: char, done: string)
    requires digits == ahead + [c] + Reversed(done)
    ensures digits == ahead + Reversed(done + [c]) && |digits| == |ahead| + 1 + |done|
  {
    ReversedAppend(done, c);
    ReversedAt(done);
  }

  /** The digits from the last to the first. */
  method MakeDigits(v0: nat, base: nat, data: array<char>) returns (count: nat)
    requires IsBase(base) && |Digits(v0, base)| <= data.Length
    modifies data
    ensures count == |Digits(v0, base)| && data[..count] == Reversed(Digits(v0, base))
  {
    var v: nat := v0;
    count := 0;
    ghost var digits := Digits(v0, base);
    while true
      invariant count <= data.Length
      invariant digits == Digits(v, base) + Reversed(data[..count])
      decreases v
    {
      ghost var done := data[..count];
      LastDigit(v, base);
      DigitMoves(digits, Ahead(Rest(v, base), base), DigitChar(v % base), done);
      var c := DigitChar(v % base);
      v := Rest(v, base);
      data[count] := c;
      count := count + 1;
      assert data[..count] == done + [c];
      if v == 0 {
        assert digits == Reversed(data[..count]);
        break;
      }
    }
    ReversedTwice(data[..count]);
    ReversedAt(data[..count]);
  }

  lemma ReversedTwice(s: string)
    ensures Reversed(Reversed(s)) == s
  {
    ReversedAt(s);
    ReversedAt(Reversed(s));
  }

  lemma WrittenMore(from: seq<char>, at: nat, text: string, c: char)
    requires at + |text| < |from|
    ensures Written(from, at, text)[at + |text| := c] == Written(from, at, text + [c])
  {
  }

  /** memcpy of the digits. */
  method CopyDigits(data: array<char>, count: nat, buf: array<char>, at: nat)
    requires data != buf && count <= data.Length && at + count <= buf.Length
    modifies buf
    ensures buf[..] == Written(old(buf[..]), at, data[..count])
  {
    ghost var was := buf[..];
    for i := 0 to count
      invariant buf[..] == Written(was, at, data[..i])
    {
      WrittenMore(was, at, data[..i], data[i]);
      buf[at + i] := data[i];
      assert data[..i + 1] == data[..i] + [data[i]];
    }
  }

  /**
   utoa_s: the digits and a NUL at `at`, if there is room for `len` characters; returns the number of
   digits, or 0.
   */
  method UtoaS(v: nat, base: nat, buf: array<char>, at: nat, len: nat) returns (n: nat)
    requires v < WORD && at + len <= buf.Length
    modifies buf
    ensures n > 0 <==> IsBase(base) && |Digits(v, base)| < len
    ensures n == 0 ==> buf[..] == old(buf[..])
    ensures n > 0 ==> n == |Digits(v, base)| && buf[..] == Written(old(buf[..]), at, Digits(v, base) + "\0")
  {
    if base > 16 || base < 2 {
      return 0;
    }
    WordDigits(v, base);
    var data := new char[32](_ => ' ');
    var count := MakeDigits(v, base, data);
    if len < count + 1 {
      return 0;
    }
    ghost var digits := Digits(v, base);
    Reverse(data, count);
    ReversedTwice(digits);
    ReversedAt(Reversed(digits));
    assert data[..count] == digits;
    ghost var was := buf[..];
    CopyDigits(data, count, buf, at);
    WrittenMore(was, at, digits, '\0');
    buf[at + count] := '\0';
    n := count;
  }
}
