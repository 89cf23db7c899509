/** Bytes and little-endian words, as the x86 stores them. */
module Bytes {

  newtype Byte = x: int | 0 <= x < 256

  const WORD: nat := 0x1_0000_0000

  /** The 16-bit word at `at`. */
  function Word16(s: seq<Byte>, at: nat): (w: nat)
    requires at + 2 <= |s|
    ensures w < 0x1_0000
  {
    s[at] as int + 0x100 * s[at + 1] as int
  }

  /** The 32-bit word at `at`. */
  function Word32(s: seq<Byte>, at: nat): (w: nat)
    requires at + 4 <= |s|
    ensures w < WORD
  {
    Word16(s, at) + 0x1_0000 * Word16(s, at + 2)
  }

  function Encode16(w: nat): (s: seq<Byte>)
    requires w < 0x1_0000
    ensures |s| == 2 && Word16(s, 0) == w
  {
    [(w % 0x100) as Byte, (w / 0x100) as Byte]
  }

  function Encode32(w: nat): (s: seq<Byte>)
    requires w < WORD
    ensures |s| == 4 && Word32(s, 0) == w
  {
    Encode16(w % 0x1_0000) + Encode16(w / 0x1_0000)
  }

  /** The number whose digits in base 256 these are, the lowest first. */
  function LittleEndian(s: seq<Byte>): nat {
    if s == [] then 0 else s[0] as nat + 0x100 * LittleEndian(s[1..])
  }

  /** A word is the number that its bytes are, the lowest first. */
  lemma WordsAreLittleEndian(s: seq<Byte>, at: nat)
    requires at + 2 <= |s|
    ensures Word16(s, at) == LittleEndian(s[at..at + 2])
    ensures at + 4 <= |s| ==> Word32(s, at) == LittleEndian(s[at..at + 4])
  {
    TwoBytes(s[at..at + 2]);
    if at + 4 <= |s| {
      FourBytes(s[at..at + 4]);
    }
  }

  lemma TwoBytes(b: seq<Byte>)
    requires |b| == 2
    ensures LittleEndian(b) == b[0] as nat + 0x100 * b[1] as nat
  {
    assert b == [b[0], b[1]] && LittleEndian([b[1]]) == b[1] as nat;
  }

  lemma FourBytes(b: seq<Byte>)
    requires |b| == 4
    ensures LittleEndian(b) == b[0] as nat + 0x100 * b[1] as nat + 0x1_0000 * b[2] as nat + 0x100_0000 * b[3] as nat
  {
    TwoBytes(b[2..]);
    assert b[1..][1..] == b[2..];
  }

  /** `s` with `bytes` copied over it at `at`. */
  function Overwrite(s: seq<Byte>, at: nat, bytes: seq<Byte>): (r: seq<Byte>)
    requires at + |bytes| <= |s|
    ensures |r| == |s|
    ensures forall k :: 0 <= k < |s| ==> r[k] == if at <= k < at + |bytes| then bytes[k - at] else s[k]
  {
    s[..at] + bytes + s[at + |bytes|..]
  }

  function Zeros(n: nat): (s: seq<Byte>)
    ensures |s| == n && forall k :: 0 <= k < n ==> s[k] == 0
  {
    seq(n, _ => 0 as Byte)
  }
}
