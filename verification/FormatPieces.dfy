/** What every conversion prints, and formats put together from their pieces. */
module FormatPieces {
  import opened Bytes
  import opened NumberText
  import opened Formatting

  // ----- the text of a conversion

  const DIGITS: string := "0123456789ABCDEF"

  /** The characters that stand for digits, and no others. */
  lemma DigitNames(d: nat, c: char)
    requires d < 16
    ensures DigitChar(d) == DIGITS[d]
    ensures DigitValue(c) == d <==> c == DIGITS[d]
  {
  }

  /** The text is the number in the base, without a zero in front of other digits. */
  ghost predicate WritesNumber(text: string, base: nat, v: nat) {
    && text != [] && (forall k :: 0 <= k < |text| ==> 0 <= DigitValue(text[k]) < base)
    && Value(text, base) == v && (text[0] == '0' ==> |text| == 1)
  }

  lemma {:induction false} DigitsWrite(v: nat, base: nat)
    requires IsBase(base)
    ensures WritesNumber(Digits(v, base), base, v)
  {
    Canonical(v, base);
    ReadsBack(v, base);
  }

  /** A number is written in one way only. */
  lemma {:induction false} WrittenOnce(text: string, base: nat, v: nat)
    requires IsBase(base) && WritesNumber(text, base, v)
    ensures text == Digits(v, base)
    decreases |text|
  {
    var n := |text| - 1;
    var front, d := text[..n], DigitValue(text[n]);
    assert text == front + [text[n]];
    DigitNames(d, text[n]);
    if front == [] {
      assert Value(text, base) == d;
    } else {
      ValueFront(front, base);
      LastOf(v, base, Value(front, base), d);
      WrittenOnce(front, base, Value(front, base));
    }
  }

  /** Digits with no zero in front stand for a number that is not 0. */
  lemma {:induction false} ValueFront(s: string, base: nat)
    requires IsBase(base) && s != [] && s[0] != '0' && forall k :: 0 <= k < |s| ==> 0 <= DigitValue(s[k]) < base
    ensures Value(s, base) > 0
    decreases |s|
  {
    if |s| > 1 {
      ValueFront(s[..|s| - 1], base);
      Multiple(1, Value(s[..|s| - 1], base), base);
    } else {
      assert s[..0] == [];
      DigitNames(0, s[0]);
    }
  }

  lemma LastOf(v: nat, base: nat, q: int, d: int)
    requires base >= 2 && v == q * base + d && 0 <= d < base && q > 0
    ensures v >= base && Rest(v, base) == q && v % base == d
  {
    Multiple(1, q, base);
    SameQuotient(v, base, q, d, Rest(v, base), v % base);
  }

  lemma SameQuotient(v: int, base: int, q: int, d: int, q': int, d': int)
    requires v == q * base + d && v == q' * base + d' && 0 <= d < base && 0 <= d' < base
    ensures q == q' && d == d'
  {
    assert (q - q') * base == d' - d && (q' - q) * base == d - d';
    if q > q' {
      Multiple(1, q - q', base);
    } else if q' > q {
      Multiple(1, q' - q, base);
    }
  }

  /** The text stands at one end, as the layout says, and beside it is nothing except padding up to the width. */
  ghost predicate Aligned(out: string, text: string, l: Layout) {
    && |out| == (if l.width > |text| then l.width else |text|)
    && if l.left then text <= out && forall k :: |text| <= k < |out| ==> out[k] == l.padding
       else out[|out| - |text|..] == text && forall k :: 0 <= k < |out| - |text| ==> out[k] == l.padding
  }

  lemma PaddedAligned(text: string, l: Layout)
    ensures Aligned(Padded(text, l), text, l)
  {
  }

  /** A string is printed as it is. */
  lemma PrintsString(s: string, l: Layout)
    requires Suits('s', Text(s))
    ensures Aligned(Conversion('s', l, Text(s)), s, l)
  {
  }

  /** Of an int one character is printed, from its lowest byte, without regard to the layout. */
  lemma PrintsChar(i: int, l: Layout)
    requires Suits('c', Int(i))
    ensures var out := Conversion('c', l, Int(i));
            |out| == 1 && 0 <= out[0] as int < 256 && (i - out[0] as int) % 256 == 0
  {
  }

  /** An unsigned number is printed in base 10. */
  lemma PrintsUnsigned(w: nat, l: Layout)
    requires Suits('u', Word(w))
    ensures exists text :: WritesNumber(text, 10, w) && Aligned(Conversion('u', l, Word(w)), text, l)
  {
    DigitsWrite(w, 10);
  }

  /** In hexadecimal it is printed in base 16. */
  lemma PrintsHex(w: nat, l: Layout)
    requires Suits('x', Word(w))
    ensures exists text :: WritesNumber(text, 16, w) && Aligned(Conversion('x', l, Word(w)), text, l)
  {
    DigitsWrite(w, 16);
  }

  /** A pointer is printed in base 16 behind 0x. */
  lemma PrintsPointer(w: nat, l: Layout)
    requires Suits('p', Word(w))
    ensures exists text :: WritesNumber(text, 16, w) && Aligned(Conversion('p', l, Word(w)), "0x" + text, l)
  {
    DigitsWrite(w, 16);
  }

  function Sign(i: int): string {
    if i < 0 then "-" else []
  }

  function Size(i: int): nat {
    if i < 0 then -i else i
  }

  lemma SignThenDigits(i: int)
    requires -0x8000_0000 <= i < 0x8000_0000
    ensures SignedText(i, 10) == Sign(i) + Digits(Size(i), 10)
  {
  }

  /** A signed number is printed in base 10, behind a minus if it is negative. */
  lemma PrintsSigned(i: int, l: Layout)
    requires Suits('d', Int(i))
    ensures exists text :: WritesNumber(text, 10, Size(i)) && Aligned(Conversion('d', l, Int(i)), Sign(i) + text, l)
  {
    var text := Digits(Size(i), 10);
    DigitsWrite(Size(i), 10);
    SignThenDigits(i);
    PaddedAligned(Sign(i) + text, l);
  }

  // ----- reading it back

  /** The layouts that there are: on the left only blanks are padding. */
  predicate IsLayout(l: Layout) {
    l.width < WORD && (l.padding == ' ' || (l.padding == '0' && !l.left))
  }

  /** Without the padding on its side. */
  function Unpadded(out: string, l: Layout): string {
    if l.left then
      if out != [] && out[|out| - 1] == l.padding then Unpadded(out[..|out| - 1], l) else out
    else
      if out != [] && out[0] == l.padding then Unpadded(out[1..], l) else out
  }

  lemma {:induction false} UnpaddedLeft(out: string, text: string, l: Layout)
    requires l.left && text != [] && text[|text| - 1] != l.padding && text <= out
    requires forall k :: |text| <= k < |out| ==> out[k] == l.padding
    ensures Unpadded(out, l) == text
    decreases |out|
  {
    if |out| > |text| {
      UnpaddedLeft(out[..|out| - 1], text, l);
    }
  }

  lemma {:induction false} UnpaddedRight(out: string, text: string, l: Layout)
    requires !l.left && |text| <= |out| && out[|out| - |text|..] == text
    requires text != [] && text[0] != l.padding
    requires forall k :: 0 <= k < |out| - |text| ==> out[k] == l.padding
    ensures Unpadded(out, l) == text
    decreases |out|
  {
    if |out| > |text| {
      assert out[1..][|out| - 1 - |text|..] == text;
      UnpaddedRight(out[1..], text, l);
    } else {
      assert out == text;
    }
  }

  /** A number reads back in its base once the padding on its side is gone, also if zeros are padding. */
  lemma NumberReadsBack(out: string, text: string, l: Layout, base: nat, v: nat)
    requires IsLayout(l) && IsBase(base) && WritesNumber(text, base, v) && Aligned(out, text, l)
    ensures Value(Unpadded(out, l), base) == v
  {
    if text[0] == '0' && l.padding == '0' {
      assert text == "0" && Value("0", base) == 0;
      AllZeros(out, l);
    } else if l.left {
      UnpaddedLeft(out, text, l);
    } else {
      UnpaddedRight(out, text, l);
    }
  }

  lemma {:induction false} AllZeros(out: string, l: Layout)
    requires l.padding == '0' && !l.left && forall k :: 0 <= k < |out| ==> out[k] == '0'
    ensures Unpadded(out, l) == []
    decreases |out|
  {
    if out != [] {
      AllZeros(out[1..], l);
    }
  }

  // ----- flags and width, read from the format

  predicate AllFlags(fs: string) {
    forall k :: 0 <= k < |fs| ==> IsFlag(fs[k])
  }

  /** Digits with no zero in front, which would be a flag; or none. */
  predicate IsWidth(ds: string) {
    ds != [] ==> AllDigits(ds) && ds[0] != '0'
  }

  /** With a dash blanks are padding; otherwise the last flag says. */
  function LayoutOf(fs: string, ds: string): Layout {
    Layout('-' in fs, if '-' in fs || fs == [] then ' ' else fs[|fs| - 1], Value(ds, 10) % WORD)
  }

  /** There is this text at `i`. */
  ghost predicate Lies(fmt: string, i: nat, s: string) {
    i + |s| <= |fmt| && forall k: int {:trigger LiesKey(k)} :: LiesKey(k) ==> fmt[i..i + |s|] == s
  }

  /** Keeps `Lies` closed: what it says is in view only where a key is stated. */
  ghost predicate LiesKey(k: int) {
    true
  }

  lemma LiesBehind(fmt: string, i: nat, a: string, b: string)
    requires Lies(fmt, i, a + b)
    ensures Lies(fmt, i, a) && Lies(fmt, i + |a|, b)
  {
    assert LiesKey(0);
    var s := fmt[i..i + |a + b|];
    assert s[..|a|] == a && s[|a|..] == b;
    assert s[..|a|] == fmt[i..i + |a|] && s[|a|..] == fmt[i + |a|..i + |a| + |b|];
  }

  lemma {:induction false} FlagsRead(fmt: string, i: nat, fs: string, l: Layout)
    requires Lies(fmt, i, fs) && AllFlags(fs) && (i + |fs| < |fmt| ==> !IsFlag(fmt[i + |fs|]))
    ensures var (r, j) := Flags(fmt, i, l);
            && j == i + |fs| && r.left == (l.left || '-' in fs) && r.width == l.width
            && ('-' !in fs ==> r.padding == if fs == [] then l.padding else fs[|fs| - 1])
    decreases |fs|
  {
    if fs != [] {
      assert LiesKey(0);
      assert fmt[i] == fs[0] && fs == [fs[0]] + fs[1..];
      LiesBehind(fmt, i, [fs[0]], fs[1..]);
      FlagsRead(fmt, i + 1, fs[1..], WithFlag(l, fs[0]));
    }
  }

  /** The width after these digits. */
  function WithDigits(w: nat, ds: string): nat
    requires forall k :: 0 <= k < |ds| ==> IsDigit(ds[k])
  {
    if ds == [] then w else WithDigit(WithDigits(w, ds[..|ds| - 1]), ds[|ds| - 1])
  }

  lemma {:induction false} FirstDigit(w: nat, ds: string)
    requires AllDigits(ds)
    ensures WithDigits(w, ds) == WithDigits(WithDigit(w, ds[0]), ds[1..])
    decreases |ds|
  {
    if |ds| > 1 {
      FirstDigit(w, ds[..|ds| - 1]);
      assert ds[..|ds| - 1][1..] == ds[1..][..|ds| - 2];
    } else {
      assert ds[..0] == [] && ds[1..] == [];
    }
  }

  lemma {:induction false} WidthRead(fmt: string, i: nat, ds: string, w: nat)
    requires Lies(fmt, i, ds) && (forall k :: 0 <= k < |ds| ==> IsDigit(ds[k]))
    requires i + |ds| < |fmt| ==> !IsDigit(fmt[i + |ds|])
    ensures Width(fmt, i, w) == (WithDigits(w, ds), i + |ds|)
    decreases |ds|
  {
    if ds != [] {
      assert LiesKey(0);
      assert fmt[i] == ds[0] && ds == [ds[0]] + ds[1..];
      LiesBehind(fmt, i, [ds[0]], ds[1..]);
      FirstDigit(w, ds);
      WidthRead(fmt, i + 1, ds[1..], WithDigit(w, ds[0]));
    }
  }

  /** The width is what its digits stand for, as a 32-bit word. */
  lemma {:induction false} WidthIsValue(ds: string)
    requires forall k :: 0 <= k < |ds| ==> IsDigit(ds[k])
    ensures Value(ds, 10) >= 0 && WithDigits(0, ds) == Value(ds, 10) % WORD
    decreases |ds|
  {
    if ds != [] {
      WidthIsValue(ds[..|ds| - 1]);
      WordStep(Value(ds[..|ds| - 1], 10), (ds[|ds| - 1] - '0') as nat);
    }
  }

  lemma WordStep(v: nat, d: nat)
    ensures (v % WORD * 10 + d) % WORD == (v * 10 + d) % WORD
  {
    var q := v / WORD;
    assert v * 10 + d == (v % WORD * 10 + d) + (q * 10) * WORD;
    Turns(v % WORD * 10 + d, q * 10);
  }

  lemma Turns(a: nat, n: nat)
    ensures (a + n * WORD) % WORD == a % WORD
  {
  }

  /** Flags and a width are read as their layout, up to the character behind them. */
  lemma LayoutRead(fmt: string, i: nat, fs: string, ds: string)
    requires Lies(fmt, i, fs + ds) && AllFlags(fs) && IsWidth(ds)
    requires var j := i + |fs| + |ds|; j < |fmt| ==> !IsDigit(fmt[j]) && (ds == [] ==> !IsFlag(fmt[j]))
    ensures LayoutAt(fmt, i) == (LayoutOf(fs, ds), i + |fs| + |ds|)
  {
    assert LiesKey(0);
    LiesBehind(fmt, i, fs, ds);
    if ds != [] {
      assert fmt[i + |fs|] == ds[0];
    }
    FlagsRead(fmt, i, fs, Layout(false, ' ', 0));
    WidthRead(fmt, i + |fs|, ds, 0);
    WidthIsValue(ds);
  }

  /** Flags and digits for a layout, */
  function FlagsFor(l: Layout): string {
    if l.left then "-" else if l.padding == '0' then "0" else []
  }

  function WidthFor(w: nat): string {
    if w == 0 then [] else Digits(w, 10)
  }

  /** which stand for it: every layout can be asked for. */
  lemma EveryLayout(l: Layout)
    requires IsLayout(l)
    ensures AllFlags(FlagsFor(l)) && IsWidth(WidthFor(l.width)) && LayoutOf(FlagsFor(l), WidthFor(l.width)) == l
  {
    DigitsWrite(l.width, 10);
    DecimalDigits(l.width);
    assert WidthFor(l.width) != [] ==> WidthFor(l.width)[0] != '0';
    assert Value([], 10) == 0;
  }

  /** And no others are ever read, whatever the format. */
  lemma OnlyLayouts(fmt: string, i: nat)
    requires i <= |fmt|
    ensures IsLayout(LayoutAt(fmt, i).0)
  {
    FlagsKnown(fmt, i, Layout(false, ' ', 0));
    WidthKnown(fmt, Flags(fmt, i, Layout(false, ' ', 0)).1, 0);
  }

  lemma {:induction false} FlagsKnown(fmt: string, i: nat, l: Layout)
    requires i <= |fmt| && (l.padding == ' ' || l.padding == '0')
    ensures var r := Flags(fmt, i, l).0; r.padding == ' ' || r.padding == '0'
    decreases |fmt| - i
  {
    if i < |fmt| && IsFlag(fmt[i]) {
      FlagsKnown(fmt, i + 1, WithFlag(l, fmt[i]));
    }
  }

  lemma {:induction false} WidthKnown(fmt: string, i: nat, w: nat)
    requires i <= |fmt| && w < WORD
    ensures Width(fmt, i, w).0 < WORD
    decreases |fmt| - i
  {
    if i < |fmt| && IsDigit(fmt[i]) {
      WidthKnown(fmt, i + 1, WithDigit(w, fmt[i]));
    }
  }

  // ----- formats put together

  /** A piece of a format: a character, a percent sign, a conversion with its argument, or a letter that is none. */
  datatype Part =
    | Plain(c: char)
    | Percent(fs: string, ds: string)
    | Conv(fs: string, ds: string, c: char, arg: Arg)
    | Unknown(fs: string, ds: string, c: char)
  {
    predicate Ok() {
      match this
      case Plain(c) => c != '%'
      case Percent(fs, ds) => AllFlags(fs) && IsWidth(ds)
      case Conv(fs, ds, c, arg) => AllFlags(fs) && IsWidth(ds) && NeedsArg(c) && Suits(c, arg)
      case Unknown(fs, ds, c) =>
        AllFlags(fs) && IsWidth(ds) && !NeedsArg(c) && c != '%' && !IsFlag(c) && !IsDigit(c)
    }

    /** As it is written in the format. */
    function Source(): string {
      match this
      case Plain(c) => [c]
      case Percent(fs, ds) => "%" + (fs + ds) + "%"
      case Conv(fs, ds, c, _) => "%" + (fs + ds) + [c]
      case Unknown(fs, ds, c) => "%" + (fs + ds) + [c]
    }

    function Args(): seq<Arg> {
      if Conv? then [arg] else []
    }

    /** What it prints. */
    function Output(): string {
      match this
      case Plain(c) => [c]
      case Percent(_, _) => "%"
      case Conv(fs, ds, c, arg) => if NeedsArg(c) && Suits(c, arg) then Conversion(c, LayoutOf(fs, ds), arg) else []
      case Unknown(_, _, c) => [c]
    }
  }

  ghost function OkParts(): iset<Part> {
    iset p: Part | p.Ok()
  }

  ghost predicate AllOk(ps: seq<Part>) {
    forall k :: 0 <= k < |ps| ==> ps[k] in OkParts()
  }

  function Source(ps: seq<Part>): string {
    if ps == [] then [] else ps[0].Source() + Source(ps[1..])
  }

  function Args(ps: seq<Part>): seq<Arg> {
    if ps == [] then [] else ps[0].Args() + Args(ps[1..])
  }

  function Outputs(ps: seq<Part>): string {
    if ps == [] then [] else ps[0].Output() + Outputs(ps[1..])
  }

  /** From `i` on the format and its arguments print this text. */
  ghost predicate PrintsBody(fmt: string, i: nat, args: seq<Arg>, text: string) {
    i <= |fmt| && WellTyped(fmt, i, args) && Full(fmt, i, args) == text
  }

  ghost function Printing(fmt: string, i: nat, args: seq<Arg>): iset<string> {
    iset text | PrintsBody(fmt, i, args, text)
  }

  ghost predicate Prints(fmt: string, i: nat, args: seq<Arg>, text: string) {
    text in Printing(fmt, i, args)
  }

  lemma OneMore(fmt: string, i: nat, args: seq<Arg>, text: string, next: nat, rest: seq<Arg>, more: string)
    requires i < |fmt| && Suited(fmt, i, args) && PieceAt(fmt, i, args) == Piece(text, next, rest)
    requires Prints(fmt, next, rest, more)
    ensures Prints(fmt, i, args, text + more)
  {
  }

  lemma NothingMore(fmt: string, args: seq<Arg>)
    ensures Prints(fmt, |fmt|, args, [])
  {
  }

  /** Behind a percent sign and its layout there is this character. */
  lemma LetterRead(fmt: string, i: nat, fs: string, ds: string, c: char)
    requires Lies(fmt, i, "%" + (fs + ds) + [c]) && AllFlags(fs) && IsWidth(ds) && !IsFlag(c) && !IsDigit(c)
    ensures fmt[i] == '%' && i + 1 + |fs| + |ds| < |fmt| && fmt[i + 1 + |fs| + |ds|] == c
    ensures LayoutAt(fmt, i + 1) == (LayoutOf(fs, ds), i + 1 + |fs| + |ds|)
  {
    assert LiesKey(0);
    LiesBehind(fmt, i, "%" + (fs + ds), [c]);
    LiesBehind(fmt, i, "%", fs + ds);
    assert fmt[i..i + 1] == "%";
    assert fmt[i + 1 + |fs| + |ds|..i + 2 + |fs| + |ds|] == [c];
    LayoutRead(fmt, i + 1, fs, ds);
  }

  lemma CharPrints(fmt: string, i: nat, c: char, rest: seq<Arg>, more: string)
    requires c != '%' && i < |fmt| && fmt[i] == c && Prints(fmt, i + 1, rest, more)
    ensures Prints(fmt, i, rest, [c] + more)
  {
    OneMore(fmt, i, rest, [c], i + 1, rest, more);
  }

  lemma PercentPrints(fmt: string, i: nat, fs: string, ds: string, rest: seq<Arg>, more: string)
    requires AllFlags(fs) && IsWidth(ds) && Lies(fmt, i, "%" + (fs + ds) + "%")
    requires Prints(fmt, i + |fs| + |ds| + 2, rest, more)
    ensures Prints(fmt, i, rest, "%" + more)
  {
    LetterRead(fmt, i, fs, ds, '%');
    OneMore(fmt, i, rest, "%", i + |fs| + |ds| + 2, rest, more);
  }

  lemma ConvPrints(fmt: string, i: nat, fs: string, ds: string, c: char, arg: Arg, rest: seq<Arg>, more: string)
    requires AllFlags(fs) && IsWidth(ds) && Lies(fmt, i, "%" + (fs + ds) + [c]) && NeedsArg(c) && Suits(c, arg)
    requires Prints(fmt, i + |fs| + |ds| + 2, rest, more)
    ensures Prints(fmt, i, [arg] + rest, Conversion(c, LayoutOf(fs, ds), arg) + more)
  {
    LetterRead(fmt, i, fs, ds, c);
    ConvPiece(fmt, i, fs, ds, c, arg, rest);
    OneMore(fmt, i, [arg] + rest, Conversion(c, LayoutOf(fs, ds), arg), i + |fs| + |ds| + 2, rest, more);
  }

  lemma ConvPiece(fmt: string, i: nat, fs: string, ds: string, c: char, arg: Arg, rest: seq<Arg>)
    requires i + 1 + |fs| + |ds| < |fmt| && fmt[i] == '%' && fmt[i + 1 + |fs| + |ds|] == c
    requires LayoutAt(fmt, i + 1) == (LayoutOf(fs, ds), i + 1 + |fs| + |ds|) && NeedsArg(c) && Suits(c, arg)
    ensures Suited(fmt, i, [arg] + rest)
    ensures PieceAt(fmt, i, [arg] + rest)
            == Piece(Conversion(c, LayoutOf(fs, ds), arg), i + |fs| + |ds| + 2, rest)
  {
    assert ([arg] + rest)[0] == arg && ([arg] + rest)[1..] == rest;
  }

  lemma UnknownPrints(fmt: string, i: nat, fs: string, ds: string, c: char, rest: seq<Arg>, more: string)
    requires AllFlags(fs) && IsWidth(ds) && Lies(fmt, i, "%" + (fs + ds) + [c])
    requires !NeedsArg(c) && c != '%' && !IsFlag(c) && !IsDigit(c)
    requires Prints(fmt, i + |fs| + |ds| + 2, rest, more)
    ensures Prints(fmt, i, rest, [c] + more)
  {
    LetterRead(fmt, i, fs, ds, c);
    var j := i + 1 + |fs| + |ds|;
    CharPrints(fmt, j, c, rest, more);
    OneMore(fmt, i, rest, [], j, rest, [c] + more);
    assert [] + ([c] + more) == [c] + more;
  }

  lemma PartPrints(fmt: string, i: nat, p: Part, rest: seq<Arg>, more: string)
    requires p in OkParts() && Lies(fmt, i, p.Source()) && Prints(fmt, i + |p.Source()|, rest, more)
    ensures Prints(fmt, i, p.Args() + rest, p.Output() + more)
  {
    assert [] + rest == rest;
    match p
    case Plain(c) =>
      assert LiesKey(0);
      assert fmt[i..i + 1] == [c];
      CharPrints(fmt, i, c, rest, more);
    case Percent(fs, ds) => PercentPrints(fmt, i, fs, ds, rest, more);
    case Conv(fs, ds, c, arg) => ConvPrints(fmt, i, fs, ds, c, arg, rest, more);
    case Unknown(fs, ds, c) => UnknownPrints(fmt, i, fs, ds, c, rest, more);
  }

  /** The parts lie at `i`, and behind them the format prints `more`. */
  ghost predicate Ready(fmt: string, i: nat, ps: seq<Part>, rest: seq<Arg>, more: string) {
    AllOk(ps) && Lies(fmt, i, Source(ps)) && Prints(fmt, i + |Source(ps)|, rest, more)
  }

  ghost function ReadyAt(fmt: string, ps: seq<Part>, rest: seq<Arg>, more: string): iset<nat> {
    iset i: nat | Ready(fmt, i, ps, rest, more)
  }

  /** A format put together from parts prints their outputs, one after the other, and goes on with what is behind. */
  lemma {:induction false} PartsPrint(fmt: string, i: nat, ps: seq<Part>, rest: seq<Arg>, more: string)
    requires i in ReadyAt(fmt, ps, rest, more)
    ensures Prints(fmt, i, Args(ps) + rest, Outputs(ps) + more)
    decreases |ps|
  {
    if ps == [] {
      NoParts(fmt, i, rest, more);
    } else {
      var j := FirstReady(fmt, i, ps, rest, more);
      PartsPrint(fmt, j, ps[1..], rest, more);
      FirstPrints(fmt, i, j, ps, rest, more);
    }
  }

  lemma NoParts(fmt: string, i: nat, rest: seq<Arg>, more: string)
    requires i in ReadyAt(fmt, [], rest, more)
    ensures Prints(fmt, i, Args([]) + rest, Outputs([]) + more)
  {
    assert Args([]) + rest == rest && Outputs([]) + more == more;
  }

  lemma FirstReady(fmt: string, i: nat, ps: seq<Part>, rest: seq<Arg>, more: string) returns (j: nat)
    requires i in ReadyAt(fmt, ps, rest, more) && ps != []
    ensures j in ReadyAt(fmt, ps[1..], rest, more) && IsNext(ps, i, j)
  {
    j := Behind(fmt, i, ps[0].Source(), Source(ps[1..]), rest, more);
    RestOk(ps);
  }

  lemma Behind(fmt: string, i: nat, a: string, b: string, rest: seq<Arg>, more: string) returns (j: nat)
    requires Lies(fmt, i, a + b) && Prints(fmt, i + |a + b|, rest, more)
    ensures j == i + |a| && Lies(fmt, j, b) && Prints(fmt, j + |b|, rest, more)
  {
    j := i + |a|;
    LiesBehind(fmt, i, a, b);
  }

  lemma RestOk(ps: seq<Part>)
    requires AllOk(ps) && ps != []
    ensures AllOk(ps[1..])
  {
  }

  ghost predicate IsNext(ps: seq<Part>, i: nat, j: nat) {
    ps != [] && j == i + |ps[0].Source()|
  }

  lemma FirstPrints(fmt: string, i: nat, j: nat, ps: seq<Part>, rest: seq<Arg>, more: string)
    requires i in ReadyAt(fmt, ps, rest, more) && ps != [] && IsNext(ps, i, j)
    requires Prints(fmt, j, Args(ps[1..]) + rest, Outputs(ps[1..]) + more)
    ensures Prints(fmt, i, Args(ps) + rest, Outputs(ps) + more)
  {
    LiesBehind(fmt, i, ps[0].Source(), Source(ps[1..]));
    PartThen(fmt, i, ps[0], Args(ps[1..]), rest, Outputs(ps[1..]), more);
  }

  lemma PartThen(fmt: string, i: nat, p: Part, args: seq<Arg>, rest: seq<Arg>, text: string, more: string)
    requires p in OkParts() && Lies(fmt, i, p.Source()) && Prints(fmt, i + |p.Source()|, args + rest, text + more)
    ensures Prints(fmt, i, (p.Args() + args) + rest, (p.Output() + text) + more)
  {
    PartPrints(fmt, i, p, args + rest, text + more);
    assert (p.Args() + args) + rest == p.Args() + (args + rest);
    assert (p.Output() + text) + more == p.Output() + (text + more);
  }

  /** The whole of such a format. */
  lemma FormatPrints(ps: seq<Part>)
    requires AllOk(ps)
    ensures WellTyped(Source(ps), 0, Args(ps)) && Full(Source(ps), 0, Args(ps)) == Outputs(ps)
  {
    assert Source(ps)[0..|Source(ps)|] == Source(ps);
    NothingMore(Source(ps), []);
    PartsPrint(Source(ps), 0, ps, [], []);
    assert Args(ps) + [] == Args(ps) && Outputs(ps) + [] == Outputs(ps);
  }

  /** A percent sign and a layout at the end of a format print nothing. */
  lemma NothingBehind(fs: string, ds: string, args: seq<Arg>)
    requires AllFlags(fs) && IsWidth(ds)
    ensures Prints("%" + (fs + ds), 0, args, [])
  {
    var fmt := "%" + (fs + ds);
    assert fmt[1..1 + |fs + ds|] == fs + ds;
    LayoutRead(fmt, 1, fs, ds);
    NothingMore(fmt, args);
    OneMore(fmt, 0, args, [], |fmt|, args, []);
    assert [] + [] == "";
  }
}
