/** Formatting into a buffer of a given size. */
module Printf {
  import opened Units
  import opened Bytes
  import opened NumberText
  import opened Formatting

  /** As much of a text as fits. */
  function Cut(s: string, size: nat): (r: string)
    ensures |r| == Min(|s|, size)
  {
    s[..Min(|s|, size)]
  }

  lemma WrittenTwice(from: seq<char>, at: nat, a: string, b: string)
    requires at + |a| + |b| <= |from|
    ensures Written(Written(from, at, a), at + |a|, b) == Written(from, at, a + b)
  {
  }

  lemma WrittenNothing(from: seq<char>, at: nat)
    requires at <= |from|
    ensures Written(from, at, []) == from
  {
  }

  /** copy_str: at most `n` characters. */
  method CopyStr(buf: array<char>, at: nat, src: string, n: nat) returns (copied: nat)
    requires at + n <= buf.Length
    modifies buf
    ensures copied == Min(|src|, n) && buf[..] == Written(old(buf[..]), at, Cut(src, n))
  {
    ghost var was := buf[..];
    copied := 0;
    WrittenNothing(was, at);
    assert src[..0] == [];
    while copied < n && copied < |src|
      invariant copied <= n && copied <= |src| && buf[..] == Written(was, at, src[..copied])
    {
      WrittenMore(was, at, src[..copied], src[copied]);
      buf[at + copied] := src[copied];
      copied := copied + 1;
      assert src[..copied] == src[..copied - 1] + [src[copied - 1]];
    }
  }

  /** fill_padding: at most `size` characters. */
  method FillPadding(buf: array<char>, at: nat, size: nat, padding: char, paddingLen: nat) returns (filled: nat)
    requires at + size <= buf.Length
    modifies buf
    ensures filled == Min(paddingLen, size) && buf[..] == Written(old(buf[..]), at, Repeat(padding, filled))
  {
    ghost var was := buf[..];
    filled := 0;
    WrittenNothing(was, at);
    assert Repeat(padding, 0) == [];
    while filled < size && filled < paddingLen
      invariant filled <= size && filled <= paddingLen && buf[..] == Written(was, at, Repeat(padding, filled))
    {
      WrittenMore(was, at, Repeat(padding, filled), padding);
      buf[at + filled] := padding;
      filled := filled + 1;
      assert Repeat(padding, filled) == Repeat(padding, filled - 1) + [padding];
    }
  }

  function PaddingFor(str: string, l: Layout): nat {
    if l.width > |str| then l.width - |str| else 0
  }

  lemma CutRight(str: string, l: Layout, size: nat)
    requires !l.left
    ensures var filled := Min(PaddingFor(str, l), size);
            Cut(Padded(str, l), size) == Repeat(l.padding, filled) + Cut(str, size - filled)
  {
  }

  lemma CutLeft(str: string, l: Layout, size: nat)
    requires l.left
    ensures var copied := Min(|str|, size);
            Cut(Padded(str, l), size) == Cut(str, size) + Repeat(l.padding, Min(PaddingFor(str, l), size - copied))
  {
  }

  /** The padding, then as much of the string as still fits. */
  lemma PutRight(was: seq<char>, mid: seq<char>, done: seq<char>, at: nat, size: nat, str: string, l: Layout,
                 filled: nat, copied: nat)
    requires at + size <= |was| && !l.left && filled == Min(PaddingFor(str, l), size) &&
             copied == Min(|str|, size - filled)
    requires mid == Written(was, at, Repeat(l.padding, filled)) &&
             done == Written(mid, at + filled, Cut(str, size - filled))
    ensures copied + filled == |Cut(Padded(str, l), size)| && done == Written(was, at, Cut(Padded(str, l), size))
  {
    CutRight(str, l, size);
    WrittenTwice(was, at, Repeat(l.padding, filled), Cut(str, size - filled));
  }

  lemma PutLeft(was: seq<char>, mid: seq<char>, done: seq<char>, at: nat, size: nat, str: string, l: Layout,
                filled: nat, copied: nat)
    requires at + size <= |was| && l.left && copied == Min(|str|, size) &&
             filled == Min(PaddingFor(str, l), size - copied)
    requires mid == Written(was, at, Cut(str, size)) && done == Written(mid, at + copied, Repeat(l.padding, filled))
    ensures copied + filled == |Cut(Padded(str, l), size)| && done == Written(was, at, Cut(Padded(str, l), size))
  {
    CutLeft(str, l, size);
    WrittenTwice(was, at, Cut(str, size), Repeat(l.padding, filled));
  }

  /** copy_with_padding: as much of the padded text as fits. */
  method CopyWithPadding(buf: array<char>, at: nat, size: nat, str: string, l: Layout) returns (n: nat)
    requires at + size <= buf.Length
    modifies buf
    ensures n == |Cut(Padded(str, l), size)| && buf[..] == Written(old(buf[..]), at, Cut(Padded(str, l), size))
  {
    ghost var was := buf[..];
    ghost var mid;
    var paddingLen := if l.width > |str| then l.width - |str| else 0;
    var filled, copied;
    if !l.left {
      filled := FillPadding(buf, at, size, l.padding, paddingLen);
      mid := buf[..];
      copied := CopyStr(buf, at + filled, str, size - filled);
      PutRight(was, mid, buf[..], at, size, str, l, filled, copied);
    } else {
      copied := CopyStr(buf, at, str, size);
      mid := buf[..];
      filled := FillPadding(buf, at + copied, size - copied, l.padding, paddingLen);
      PutLeft(was, mid, buf[..], at, size, str, l, filled, copied);
    }
    n := copied + filled;
  }

  /** itoa_s. */
  method ItoaS(i: int, base: nat, buf: array<char>, len: nat) returns (n: nat)
    requires -0x8000_0000 <= i < 0x8000_0000 && len <= buf.Length
    modifies buf
    ensures n > 0 <==> IsBase(base) && |SignedText(i, base)| < len
    ensures n > 0 ==> n == |SignedText(i, base)| && buf[..n] == SignedText(i, base) && buf[n] == '\0'
  {
    if base == 10 && i < 0 {
      if len < 1 {
        return 0;
      }
      var k := UtoaS(-i, base, buf, 1, len - 1);
      if k == 0 {
        return 0;
      }
      buf[0] := '-';
      n := k + 1;
      assert buf[..n] == ['-'] + buf[1..n];
    } else {
      n := UtoaS(i % WORD, base, buf, 0, len);
    }
  }

  /** snprint_int and snprint_uint: a number in its own buffer of 33 characters, which suffices. */
  method SnprintInt(buf: array<char>, at: nat, size: nat, i: int, l: Layout) returns (n: nat)
    requires at + size <= buf.Length && -0x8000_0000 <= i < 0x8000_0000
    modifies buf
    ensures var text := Cut(Padded(SignedText(i, 10), l), size);
            n == |text| && buf[..] == Written(old(buf[..]), at, text)
  {
    var str := new char[33](_ => ' ');
    DecimalShort(if i < 0 then -i else i);
    var len := ItoaS(i, 10, str, str.Length);
    n := CopyWithPadding(buf, at, size, str[..len], l);
  }

  lemma DecimalShort(v: nat)
    requires v <= 0x8000_0000
    ensures |Digits(v, 10)| <= 31
  {
    assert Power(10, 4) == 10000;
    assert Power(10, 8) == 100000000;
    assert Power(10, 10) == 10000000000;
    DigitsBounded(v, 10, 10);
  }

  method SnprintUint(buf: array<char>, at: nat, size: nat, w: nat, base: nat, l: Layout) returns (n: nat)
    requires at + size <= buf.Length && w < WORD && IsBase(base)
    modifies buf
    ensures var text := Cut(Padded(Digits(w, base), l), size);
            n == |text| && buf[..] == Written(old(buf[..]), at, text)
  {
    var str := new char[33](_ => ' ');
    WordDigits(w, base);
    var len := UtoaS(w, base, str, 0, str.Length);
    assert str[..len] == Digits(w, base);
    n := CopyWithPadding(buf, at, size, str[..len], l);
  }

  method SnprintPointer(buf: array<char>, at: nat, size: nat, w: nat, l: Layout) returns (n: nat)
    requires at + size <= buf.Length && w < WORD
    modifies buf
    ensures var text := Cut(Padded("0x" + Digits(w, 16), l), size);
            n == |text| && buf[..] == Written(old(buf[..]), at, text)
  {
    var str := new char[35](_ => '\0');
    str[0], str[1] := '0', 'x';
    WordDigits(w, 16);
    var len := UtoaS(w, 16, str, 2, str.Length - 2);
    len := len + 2;
    assert str[..len] == "0x" + Digits(w, 16);
    n := CopyWithPadding(buf, at, size, str[..len], l);
  }

  // ----- the format

  /** The flags, and then the width. */
  method ReadLayout(fmt: string, i: nat) returns (l: Layout, j: nat)
    requires i <= |fmt|
    ensures (l, j) == LayoutAt(fmt, i)
  {
    l, j := Layout(false, ' ', 0), i;
    while j < |fmt| && IsFlag(fmt[j])
      invariant j <= |fmt| && Flags(fmt, i, Layout(false, ' ', 0)) == Flags(fmt, j, l)
    {
      l := WithFlag(l, fmt[j]);
      j := j + 1;
    }
    if l.left {
      l := l.(padding := ' ');
    }
    ghost var k := j;
    var width := 0;
    while j < |fmt| && IsDigit(fmt[j])
      invariant k <= j <= |fmt| && Width(fmt, k, 0) == Width(fmt, j, width)
    {
      width := WithDigit(width, fmt[j]);
      j := j + 1;
    }
    l := l.(width := width);
  }

  /** One conversion with an argument, as much of it as fits; there is room for a character at least. */
  method Convert(buf: array<char>, at: nat, size: nat, c: char, l: Layout, a: Arg) returns (n: nat)
    requires at + size <= buf.Length && size > 0 && NeedsArg(c) && Suits(c, a)
    modifies buf
    ensures var text := Cut(Conversion(c, l, a), size);
            n == |text| && buf[..] == Written(old(buf[..]), at, text)
  {
    match c {
      case 'c' =>
        ghost var was := buf[..];
        buf[at] := (a.i % 256) as char;
        n := 1;
        assert Cut([(a.i % 256) as char], size) == [(a.i % 256) as char];
        assert buf[..] == Written(was, at, [(a.i % 256) as char]);
      case 's' => n := CopyWithPadding(buf, at, size, a.s, l);
      case 'd' => n := SnprintInt(buf, at, size, a.i, l);
      case 'p' => n := SnprintPointer(buf, at, size, a.w, l);
      case 'x' => n := SnprintUint(buf, at, size, a.w, 16, l);
      case _ => n := SnprintUint(buf, at, size, a.w, 10, l);
    }
  }

  /** One round of the loop: what the format has at a position, as much of it as fits. */
  method PutPiece(buf: array<char>, at: nat, size: nat, fmt: string, i: nat, args: seq<Arg>)
    returns (n: nat, i': nat, args': seq<Arg>)
    requires at + size <= buf.Length && size > 0 && i < |fmt| && Suited(fmt, i, args)
    modifies buf
    ensures i' == PieceAt(fmt, i, args).next && args' == PieceAt(fmt, i, args).args
    ensures var text := Cut(PieceAt(fmt, i, args).text, size);
            n == |text| && buf[..] == Written(old(buf[..]), at, text)
  {
    args', n := args, 0;
    if fmt[i] == '%' {
      var l, j := ReadLayout(fmt, i + 1);
      i' := j;
      if j == |fmt| {
        WrittenNothing(buf[..], at);
      } else if NeedsArg(fmt[j]) {
        n := Convert(buf, at, size, fmt[j], l, args[0]);
        i', args' := j + 1, args[1..];
      } else if fmt[j] == '%' {
        PutChar(buf, at, size, '%');
        n, i' := 1, j + 1;
      } else {
        WrittenNothing(buf[..], at);
      }
    } else {
      PutChar(buf, at, size, fmt[i]);
      n, i' := 1, i + 1;
    }
  }

  method PutChar(buf: array<char>, at: nat, size: nat, c: char)
    requires at + size <= buf.Length && size > 0
    modifies buf
    ensures Cut([c], size) == [c] && buf[..] == Written(old(buf[..]), at, [c])
  {
    buf[at] := c;
  }

  /** What was put so far, before the piece at `i`: all of the text up to there, or the start of it that fits. */
  ghost predicate Printed(whole: string, out: string, size: nat, rest: string) {
    out <= whole && (|out| < size ==> whole == out + rest)
  }

  lemma PrintedMore(whole: string, out: string, size: nat, text: string, rest: string)
    requires Printed(whole, out, size, text + rest) && |out| < size
    ensures Printed(whole, out + Cut(text, size - |out|), size, rest)
  {
    assert whole == (out + text) + rest;
  }

  /**
   vsnprintf: as much of the full text as leaves room for the NUL, the NUL behind it, and nothing beyond
   the size.
   */
  method Vsnprintf(buf: array<char>, size: nat, fmt: string, args0: seq<Arg>) returns (n: nat)
    requires size <= buf.Length && '\0' !in fmt && WellTyped(fmt, 0, args0)
    modifies buf
    ensures size == 0 ==> n == 0 && buf[..] == old(buf[..])
    ensures size > 0 ==>
      && n == Min(|Full(fmt, 0, args0)|, size - 1)
      && buf[..n] == Full(fmt, 0, args0)[..n] && buf[n] == '\0' && buf[size..] == old(buf[size..])
  {
    ghost var whole := Full(fmt, 0, args0);
    var i: nat, cur: nat, args: seq<Arg> := 0, 0, args0;
    while i < |fmt| && cur < size
      invariant i <= |fmt| && cur <= size && WellTyped(fmt, i, args)
      invariant Printed(whole, buf[..cur], size, Full(fmt, i, args)) && buf[size..] == old(buf[size..])
      decreases |fmt| - i
    {
      ghost var out, was, p := buf[..cur], buf[..], PieceAt(fmt, i, args);
      PrintedMore(whole, out, size, p.text, Full(fmt, p.next, p.args));
      var k;
      k, i, args := PutPiece(buf, cur, size - cur, fmt, i, args);
      WrittenEnds(was, cur, Cut(p.text, size - cur), size);
      cur := cur + k;
    }
    if cur < size {
      buf[cur] := '\0';
      n := cur;
    } else if size > 0 {
      buf[size - 1] := '\0';
      n := size - 1;
    } else {
      n := 0;
    }
  }

  lemma WrittenEnds(was: seq<char>, at: nat, text: string, size: nat)
    requires at + |text| <= size <= |was|
    ensures Written(was, at, text)[..at + |text|] == was[..at] + text && Written(was, at, text)[size..] == was[size..]
  {
  }
}
