/** What a format and its arguments stand for, without regard to the size of any buffer. */
module Formatting {
  import opened Bytes
  import opened NumberText

  /** An argument as the caller passes it: an int, an unsigned word or a pointer, or a string. */
  datatype Arg = Int(i: int) | Word(w: nat) | Text(s: string)

  predicate ArgOk(a: Arg) {
    match a
    case Int(i) => -0x8000_0000 <= i < 0x8000_0000
    case Word(w) => w < WORD
    case Text(s) => '\0' !in s
  }

  datatype Layout = Layout(left: bool, padding: char, width: nat)

  predicate IsFlag(c: char) {
    c == '-' || c == ' ' || c == '0'
  }

  function WithFlag(l: Layout, c: char): Layout {
    if c == '-' then l.(left := true) else l.(padding := c)
  }

  /** The flags from position `i` on, and the position behind them. */
  function Flags(fmt: string, i: nat, l: Layout): (r: (Layout, nat))
    requires i <= |fmt|
    ensures i <= r.1 <= |fmt|
    decreases |fmt| - i
  {
    if i < |fmt| && IsFlag(fmt[i]) then Flags(fmt, i + 1, WithFlag(l, fmt[i])) else (l, i)
  }

  predicate IsDigit(c: char) {
    '0' <= c <= '9'
  }

  function WithDigit(w: nat, c: char): nat
    requires IsDigit(c)
  {
    (w * 10 + (c - '0') as nat) % WORD
  }

  /** The width, as a 32-bit word, and the position behind it. */
  function Width(fmt: string, i: nat, w: nat): (r: (nat, nat))
    requires i <= |fmt|
    ensures i <= r.1 <= |fmt|
    decreases |fmt| - i
  {
    if i < |fmt| && IsDigit(fmt[i]) then Width(fmt, i + 1, WithDigit(w, fmt[i])) else (w, i)
  }

  /** A dash overrides a zero. */
  function LayoutAt(fmt: string, i: nat): (r: (Layout, nat))
    requires i <= |fmt|
    ensures i <= r.1 <= |fmt|
  {
    var (l, j) := Flags(fmt, i, Layout(false, ' ', 0));
    var (w, k) := Width(fmt, j, 0);
    (l.(padding := if l.left then ' ' else l.padding, width := w), k)
  }

  function Repeat(c: char, n: nat): (s: string)
    ensures |s| == n
  {
    seq(n, _ => c)
  }

  function Padded(s: string, l: Layout): (r: string)
    ensures |r| == if l.width > |s| then l.width else |s|
  {
    var padding := Repeat(l.padding, if l.width > |s| then l.width - |s| else 0);
    if l.left then s + padding else padding + s
  }

  predicate NeedsArg(c: char) {
    c == 'c' || c == 's' || c == 'd' || c == 'p' || c == 'x' || c == 'u'
  }

  predicate Suits(c: char, a: Arg) {
    ArgOk(a) && (if c == 'c' || c == 'd' then a.Int? else if c == 's' then a.Text? else a.Word?)
  }

  /** The text of one conversion. */
  function Conversion(c: char, l: Layout, a: Arg): string
    requires NeedsArg(c) && Suits(c, a)
  {
    match c
    case 'c' => [(a.i % 256) as char]
    case 's' => Padded(a.s, l)
    case 'd' => Padded(SignedText(a.i, 10), l)
    case 'p' => Padded("0x" + Digits(a.w, 16), l)
    case 'x' => Padded(Digits(a.w, 16), l)
    case _ => Padded(Digits(a.w, 10), l)
  }

  /** What the format has at a position: its text, the position behind it, and the arguments left. */
  datatype Piece = Piece(text: string, next: nat, args: seq<Arg>)

  /** A conversion has the argument it needs. */
  predicate Suited(fmt: string, i: nat, args: seq<Arg>)
    requires i < |fmt|
  {
    fmt[i] == '%' ==>
      var (l, j) := LayoutAt(fmt, i + 1);
      j < |fmt| && NeedsArg(fmt[j]) ==> args != [] && Suits(fmt[j], args[0])
  }

  /** A letter that is no conversion is left to be copied as it is. */
  function PieceAt(fmt: string, i: nat, args: seq<Arg>): (p: Piece)
    requires i < |fmt| && Suited(fmt, i, args)
    ensures i < p.next <= |fmt|
  {
    if fmt[i] != '%' then Piece([fmt[i]], i + 1, args)
    else
      var (l, j) := LayoutAt(fmt, i + 1);
      if j == |fmt| then Piece([], j, args)
      else if fmt[j] == '%' then Piece(['%'], j + 1, args)
      else if NeedsArg(fmt[j]) then Piece(Conversion(fmt[j], l, args[0]), j + 1, args[1..])
      else Piece([], j, args)
  }

  predicate WellTyped(fmt: string, i: nat, args: seq<Arg>)
    requires i <= |fmt|
    decreases |fmt| - i
  {
    i < |fmt| ==> Suited(fmt, i, args) && WellTyped(fmt, PieceAt(fmt, i, args).next, PieceAt(fmt, i, args).args)
  }

  /** All of the output, from position `i` of the format on. */
  function Full(fmt: string, i: nat, args: seq<Arg>): string
    requires i <= |fmt| && WellTyped(fmt, i, args)
    decreases |fmt| - i
  {
    if i == |fmt| then []
    else PieceAt(fmt, i, args).text + Full(fmt, PieceAt(fmt, i, args).next, PieceAt(fmt, i, args).args)
  }

  // ----- reading a formatted number back

  /** Leading blanks do not matter. */
  function Trimmed(s: string): string {
    if s != [] && s[0] == ' ' then Trimmed(s[1..]) else s
  }

  lemma {:induction false} TrimmedPadding(n: nat, s: string)
    requires s != [] && s[0] != ' '
    ensures Trimmed(Repeat(' ', n) + s) == s
  {
    if n == 0 {
      assert Repeat(' ', 0) + s == s;
    } else {
      assert (Repeat(' ', n) + s)[1..] == Repeat(' ', n - 1) + s;
      TrimmedPadding(n - 1, s);
    }
  }

  /** A number in decimal, aligned to the right, reads back as itself for every width. */
  lemma DecimalReadsBack(i: int, width: nat)
    requires -0x8000_0000 <= i < 0x8000_0000
    ensures SignedValue(Trimmed(Conversion('d', Layout(false, ' ', width), Int(i)))) == i
  {
    var s := SignedText(i, 10);
    SignedReadsBack(i);
    if i >= 0 {
      Canonical(i, 10);
    }
    TrimmedPadding(if width > |s| then width - |s| else 0, s);
  }

  /** A decimal number: digits, with a minus in front or none. */
  predicate IsNumeral(s: string) {
    AllDigits(if s != [] && s[0] == '-' then s[1..] else s)
  }

  predicate AllDigits(s: string) {
    s != [] && forall k :: 0 <= k < |s| ==> IsDigit(s[k])
  }

  lemma DecimalDigits(v: nat)
    ensures forall k :: 0 <= k < |Digits(v, 10)| ==> IsDigit(Digits(v, 10)[k])
  {
    Canonical(v, 10);
    forall k | 0 <= k < |Digits(v, 10)|
      ensures IsDigit(Digits(v, 10)[k])
    {
      assert 0 <= DigitValue(Digits(v, 10)[k]) < 10;
    }
  }

  lemma {:induction false} ZerosInFront(n: nat, s: string)
    ensures Value(Repeat('0', n) + s, 10) == Value(s, 10)
    decreases |s| + n
  {
    var t := Repeat('0', n) + s;
    if s != [] {
      assert t[..|t| - 1] == Repeat('0', n) + s[..|s| - 1];
      ZerosInFront(n, s[..|s| - 1]);
    } else if n > 0 {
      assert t[..|t| - 1] == Repeat('0', n - 1) + [];
      ZerosInFront(n - 1, []);
    } else {
      assert t == [];
    }
  }

  lemma ZerosThenDigits(v: nat, n: nat)
    ensures IsNumeral(Repeat('0', n) + Digits(v, 10)) && SignedValue(Repeat('0', n) + Digits(v, 10)) == v
  {
    DecimalDigits(v);
    ReadsBack(v, 10);
    ZerosInFront(n, Digits(v, 10));
    assert IsDigit((Repeat('0', n) + Digits(v, 10))[0]);
    Plain(Repeat('0', n) + Digits(v, 10));
  }

  lemma ZerosThenSign(v: nat, n: nat)
    ensures IsNumeral(Repeat('0', n) + ("-" + Digits(v, 10))) <==> n == 0
  {
    var s := Repeat('0', n) + ("-" + Digits(v, 10));
    if n == 0 {
      DecimalDigits(v);
      assert s[0] == '-' && s[1..] == Digits(v, 10);
    } else {
      assert s[0] == '0' && !IsDigit(s[n]);
    }
  }

  /** Zeros come before the sign: the text is a number exactly if it is not negative or fills the width. */
  lemma ZeroPadding(i: int, width: nat)
    requires -0x8000_0000 <= i < 0x8000_0000
    ensures var s := Conversion('d', Layout(false, '0', width), Int(i));
            && (IsNumeral(s) <==> i >= 0 || width <= |SignedText(i, 10)|)
            && (IsNumeral(s) ==> SignedValue(s) == i)
  {
    var text := SignedText(i, 10);
    var n := if width > |text| then width - |text| else 0;
    assert Conversion('d', Layout(false, '0', width), Int(i)) == Repeat('0', n) + text;
    if i >= 0 {
      ZerosThenDigits(i, n);
    } else {
      ZerosThenSign(-i, n);
      SignedReadsBack(i);
      NoZeros(n, text);
    }
  }

  lemma NoZeros(n: nat, s: string)
    ensures n == 0 ==> Repeat('0', n) + s == s
  {
  }

  /** The format %04d for -7: the zeros come before the sign, and the text is no number. */
  lemma ZerosBeforeSign()
    ensures var s := Conversion('d', Layout(false, '0', 4), Int(-7)); s == "00-7" && !IsNumeral(s)
  {
    assert SignedText(-7, 10) == "-7";
    ZeroPadding(-7, 4);
    assert Repeat('0', 2) + "-7" == "00-7";
  }
}
