/** A disk image as a file: bytes and a cursor. Blocks are the 1024-byte stretches of it. */
module ImageFile {
  import opened Bytes
  import opened DirectoryBlock

  ghost predicate HasBlock(bytes: seq<Byte>, block: nat) {
    (block + 1) * BLOCK_SIZE <= |bytes|
  }

  /** The `n` bytes from `at` on; what is not there reads as nothing. */
  function Slice(bytes: seq<Byte>, at: nat, n: nat): (s: seq<Byte>)
    ensures at + n <= |bytes| ==> |s| == n
  {
    if at + n <= |bytes| then bytes[at..at + n] else []
  }

  function BlockAt(bytes: seq<Byte>, block: nat): seq<Byte> {
    Slice(bytes, block * BLOCK_SIZE, BLOCK_SIZE)
  }

  /** At most the `n` bytes from `at` on changed. */
  ghost predicate OnlyRange(before: seq<Byte>, after: seq<Byte>, at: nat, n: nat) {
    && |after| == |before|
    && forall k :: 0 <= k < |before| && !(at <= k < at + n) ==> after[k] == before[k]
  }

  lemma SliceKept(before: seq<Byte>, after: seq<Byte>, at: nat, n: nat, from: nat, m: nat)
    requires OnlyRange(before, after, at, n) && (from + m <= at || at + n <= from)
    ensures Slice(after, from, m) == Slice(before, from, m)
  {
  }

  lemma BlockKept(before: seq<Byte>, after: seq<Byte>, at: nat, n: nat, block: nat)
    requires OnlyRange(before, after, at, n) && ((block + 1) * BLOCK_SIZE <= at || at + n <= block * BLOCK_SIZE)
    ensures BlockAt(after, block) == BlockAt(before, block)
  {
    SliceKept(before, after, at, n, block * BLOCK_SIZE, BLOCK_SIZE);
  }

  lemma Overwritten(bytes: seq<Byte>, at: nat, data: seq<Byte>)
    requires at + |data| <= |bytes|
    ensures OnlyRange(bytes, Overwrite(bytes, at, data), at, |data|)
    ensures Slice(Overwrite(bytes, at, data), at, |data|) == data
  {
  }

  /** A write inside a block is that write to the block. */
  lemma OverwrittenBlock(bytes: seq<Byte>, block: nat, at: nat, data: seq<Byte>)
    requires HasBlock(bytes, block) && at + |data| <= BLOCK_SIZE
    ensures BlockAt(Overwrite(bytes, block * BLOCK_SIZE + at, data), block)
            == Overwrite(BlockAt(bytes, block), at, data)
  {
  }

  lemma SliceInBlock(bytes: seq<Byte>, block: nat, at: nat, n: nat)
    requires HasBlock(bytes, block) && at + n <= BLOCK_SIZE
    ensures Slice(bytes, block * BLOCK_SIZE + at, n) == BlockAt(bytes, block)[at..at + n]
  {
    var s, b := Slice(bytes, block * BLOCK_SIZE + at, n), BlockAt(bytes, block);
    forall k: nat | k < n
      ensures s[k] == b[at + k]
    {
      assert b[at + k] == bytes[block * BLOCK_SIZE + at + k];
    }
  }

  lemma SliceOfSlice(bytes: seq<Byte>, at: nat, m: nat, o: nat, n: nat)
    requires at + m <= |bytes| && o + n <= m
    ensures Slice(Slice(bytes, at, m), o, n) == Slice(bytes, at + o, n)
  {
    var s, t := Slice(Slice(bytes, at, m), o, n), Slice(bytes, at + o, n);
    forall k: nat | k < n
      ensures s[k] == t[k]
    {
      assert s[k] == Slice(bytes, at, m)[o + k];
    }
  }

  class Image {
    var bytes: seq<Byte>
    var pos: nat

    constructor (bytes: seq<Byte>)
      ensures this.bytes == bytes && pos == 0
    {
      this.bytes, pos := bytes, 0;
    }

    /** fseek from the start. */
    method Seek(offset: nat)
      modifies this`pos
      ensures pos == offset
    {
      pos := offset;
    }

    /** fseek from the cursor. */
    method Skip(delta: int)
      requires pos + delta >= 0
      modifies this`pos
      ensures pos == old(pos) + delta
    {
      pos := pos + delta;
    }

    /** fread of bytes that are there. */
    method Read(n: nat) returns (s: seq<Byte>)
      requires pos + n <= |bytes|
      modifies this`pos
      ensures s == Slice(bytes, old(pos), n) && |s| == n && pos == old(pos) + n
    {
      s := bytes[pos..pos + n];
      pos := pos + n;
    }

    /** fwrite that does not extend the file. */
    method Write(s: seq<Byte>)
      requires pos + |s| <= |bytes|
      modifies this`bytes, this`pos
      ensures bytes == Overwrite(old(bytes), old(pos), s) && pos == old(pos) + |s|
    {
      bytes := Overwrite(bytes, pos, s);
      pos := pos + |s|;
    }

    /** A zero byte written `offset` bytes behind the end of the file; the gap reads as zeros. */
    method WriteZeroBehind(offset: nat)
      modifies this`bytes, this`pos
      ensures bytes == old(bytes) + Zeros(offset + 1) && pos == |bytes|
    {
      bytes := bytes + Zeros(offset + 1);
      pos := |bytes|;
    }
  }
}
