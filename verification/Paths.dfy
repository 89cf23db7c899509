/** Paths: their components, and which file of the root directory a path leads to. */
module Paths {
  import opened Bytes
  import opened DirectoryBlock

  const SLASH: Byte := 47

  type Components = seq<seq<Byte>>

  /** The parts of a path between its slashes; there may be empty ones. */
  function Split(path: seq<Byte>): (cs: Components)
    ensures cs != []
  {
    if path == [] then [[]]
    else
      var rest := Split(path[1..]);
      if path[0] == SLASH then [[]] + rest else [[path[0]] + rest[0]] + rest[1..]
  }

  function Join(cs: Components): seq<Byte>
    requires cs != []
  {
    if |cs| == 1 then cs[0] else cs[0] + [SLASH] + Join(cs[1..])
  }

  /** Joined again the components are the path, and none has a slash. */
  lemma {:induction false} SplitJoins(path: seq<Byte>)
    ensures Join(Split(path)) == path
    ensures forall i :: 0 <= i < |Split(path)| ==> SLASH !in Split(path)[i]
  {
    if path != [] {
      var rest := Split(path[1..]);
      SplitJoins(path[1..]);
      assert path == [path[0]] + path[1..];
      if path[0] == SLASH {
        assert ([[]] + rest)[1..] == rest;
      } else {
        var first := [path[0]] + rest[0];
        assert ([first] + rest[1..])[1..] == rest[1..];
        if |rest| > 1 {
          assert [path[0]] + (rest[0] + [SLASH] + Join(rest[1..])) == first + [SLASH] + Join(rest[1..]);
        }
      }
    }
  }

  /** The first component of a path, and those behind it. */
  lemma {:induction false} SplitFirst(first: seq<Byte>, rest: seq<Byte>)
    requires SLASH !in first
    ensures Split(first) == [first]
    ensures Split(first + [SLASH] + rest) == [first] + Split(rest)
  {
    var path := first + [SLASH] + rest;
    if first == [] {
      assert path[1..] == rest;
    } else {
      SplitFirst(first[1..], rest);
      assert path[1..] == first[1..] + [SLASH] + rest;
      assert first == [first[0]] + first[1..];
    }
  }

  /** Components without slashes are those of the path they are joined to. */
  lemma {:induction false} JoinSplits(cs: Components)
    requires cs != [] && forall i :: 0 <= i < |cs| ==> SLASH !in cs[i]
    ensures Split(Join(cs)) == cs
  {
    if |cs| == 1 {
      SplitFirst(cs[0], []);
    } else {
      JoinSplits(cs[1..]);
      SplitFirst(cs[0], Join(cs[1..]));
    }
  }

  predicate IsDots(c: seq<Byte>) {
    c == DOT || c == DOT_DOT
  }

  /** The path goes no further than its first `k` components: it ends there, or an empty one follows. */
  predicate Ends(cs: Components, k: nat) {
    k >= |cs| || cs[k] == []
  }

  predicate DotsBefore(cs: Components, k: nat) {
    k <= |cs| && forall i :: 0 <= i < k ==> IsDots(cs[i])
  }

  /** No dots go on behind a name that is none of them. */
  lemma DotsEnd(cs: Components, i: nat, k: nat)
    requires i < |cs| && !IsDots(cs[i]) && DotsBefore(cs, k)
    ensures k <= i
  {
    var c := cs[i];
    assert i < k ==> IsDots(c);
  }

  /** Some of `.` and `..`, and nothing else. */
  ghost predicate LeadsToRoot(cs: Components) {
    exists k: nat :: DotsBefore(cs, k) && Ends(cs, k)
  }

  /** Some of `.` and `..`, then this name, and nothing else. */
  ghost predicate Leads(cs: Components, name: seq<Byte>) {
    exists k: nat :: k < |cs| && DotsBefore(cs, k) && cs[k] == name && Ends(cs, k + 1)
  }

  /** An absolute path to a file of that name in the root directory. */
  ghost predicate Opens(path: seq<Byte>, name: seq<Byte>) {
    path != [] && path[0] == SLASH && name != [] && Leads(Split(path[1..]), name)
  }

  /** A path leads to no more than one file. */
  lemma OpensOne(path: seq<Byte>, a: seq<Byte>, b: seq<Byte>)
    requires Opens(path, a) && Opens(path, b) && !IsDots(a) && !IsDots(b)
    ensures a == b
  {
    var cs := Split(path[1..]);
    var i: nat :| i < |cs| && DotsBefore(cs, i) && cs[i] == a && Ends(cs, i + 1);
    var j: nat :| j < |cs| && DotsBefore(cs, j) && cs[j] == b && Ends(cs, j + 1);
    DotsEnd(cs, i, j);
    DotsEnd(cs, j, i);
  }

  /** A name behind a slash leads to the file of that name alone. */
  lemma NameOpens(name: seq<Byte>, n: seq<Byte>)
    requires name != [] && SLASH !in name
    ensures Opens([SLASH] + name, n) <==> n == name
  {
    assert ([SLASH] + name)[1..] == name;
    SplitFirst(name, []);
    assert DotsBefore([name], 0) && Ends([name], 1);
  }

  /** Nothing is found behind a file: with a slash and a further component its path leads nowhere. */
  lemma NothingInFile(name: seq<Byte>, more: seq<Byte>, n: seq<Byte>)
    requires SLASH !in name && name != [] && !IsDots(name) && more != [] && more[0] != SLASH
    ensures !Opens([SLASH] + name + [SLASH] + more, n)
  {
    var path := [SLASH] + name + [SLASH] + more;
    var cs := Split(path[1..]);
    assert path[1..] == name + [SLASH] + more;
    SplitFirst(name, more);
    assert cs[0] == name && cs[1] == Split(more)[0] && cs[1] != [];
    forall k: nat | DotsBefore(cs, k)
      ensures !Ends(cs, 1) && k == 0
    {
      DotsEnd(cs, 0, k);
    }
  }
}
