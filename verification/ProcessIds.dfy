/** The process identifier bitmap with its rotating generator. */
module ProcessIds {

  const PROC_MAX_NUM: nat := 1024

  predicate Bit(b: bv8, k: nat)
    requires k < 8
  {
    b & (1 << k) != 0
  }

  lemma SetBit(b: bv8, k: nat, j: nat)
    requires k < 8 && j < 8
    ensures Bit(b | (1 << k), j) <==> j == k || Bit(b, j)
  {
    BitMasks(k);
    BitMasks(j);
  }

  lemma ClearBit(b: bv8, k: nat, j: nat)
    requires k < 8 && j < 8
    ensures Bit(b & !(1 << k), j) <==> j != k && Bit(b, j)
  {
    BitMasks(k);
    BitMasks(j);
  }

  lemma BitMasks(k: nat)
    requires k < 8
    ensures (1 as bv8) << k == if k == 0 then 1 else if k == 1 then 2 else if k == 2 then 4 else if k == 3 then 8
                               else if k == 4 then 16 else if k == 5 then 32 else if k == 6 then 64 else 128
  {
  }

  /** The identifier `k` steps after `g`, going round. */
  function After(g: nat, k: nat): nat {
    (g + k) % PROC_MAX_NUM
  }

  /** The `n` identifiers from `g` on are all in use. */
  ghost predicate Skipped(used: set<nat>, g: nat, n: nat) {
    forall k: nat :: k < n ==> After(g, k) in used
  }

  class PidMap {
    const bitmap: array<bv8>
    var generator: nat

    ghost predicate Valid()
      reads this
    {
      bitmap.Length == PROC_MAX_NUM / 8 && generator < PROC_MAX_NUM
    }

    predicate InUse(pid: nat)
      requires pid / 8 < bitmap.Length
      reads bitmap
    {
      Bit(bitmap[pid / 8], pid % 8)
    }

    ghost function Used(): set<nat>
      requires bitmap.Length == PROC_MAX_NUM / 8
      reads bitmap
    {
      set pid: nat | pid < PROC_MAX_NUM && InUse(pid)
    }

    constructor ()
      ensures Valid() && fresh(bitmap) && generator == 0 && Used() == {}
    {
      bitmap := new bv8[PROC_MAX_NUM / 8](_ => 0);
      generator := 0;
    }

    /** alloc_pid: the first unused identifier from the generator on, going round; -1 when there is none. */
    method AllocPid() returns (pid: int, ghost n: nat)
      requires Valid()
      modifies this`generator, bitmap
      ensures Valid()
      ensures pid == -1 ==> (forall p: nat :: p < PROC_MAX_NUM ==> p in old(Used())) && Used() == old(Used())
      ensures pid != -1 ==> 0 <= pid < PROC_MAX_NUM && pid !in old(Used()) && Used() == old(Used()) + {pid}
      ensures pid != -1 ==> pid == After(old(generator), n) && Skipped(old(Used()), old(generator), n)
      ensures pid != -1 ==> generator == After(pid, 1)
    {
      ghost var g, used := generator, Used();
      var i := 0;
      n := 0;
      while i < PROC_MAX_NUM
        invariant 0 <= i <= PROC_MAX_NUM && n == i && bitmap[..] == old(bitmap[..]) && Used() == used
        invariant generator == After(g, i) && Skipped(used, g, i)
      {
        var p := generator;
        generator := (generator + 1) % PROC_MAX_NUM;
        if !InUse(p) {
          Mark(p);
          return p, n;
        }
        assert p in used;
        i := i + 1;
        n := i;
      }
      AllVisited(g, used);
      pid := -1;
    }

    lemma AllVisited(g: nat, used: set<nat>)
      requires g < PROC_MAX_NUM && Skipped(used, g, PROC_MAX_NUM)
      ensures forall p: nat :: p < PROC_MAX_NUM ==> p in used
    {
      forall p: nat | p < PROC_MAX_NUM
        ensures p in used
      {
        var k := if p >= g then p - g else p - g + PROC_MAX_NUM;
        assert After(g, k) == p;
      }
    }

    method Mark(p: nat)
      requires Valid() && p < PROC_MAX_NUM
      modifies bitmap
      ensures Used() == old(Used()) + {p}
    {
      var b := bitmap[p / 8];
      bitmap[p / 8] := b | (1 << (p % 8));
      forall q: nat | q < PROC_MAX_NUM
        ensures InUse(q) <==> q == p || old(InUse(q))
      {
        if q / 8 == p / 8 {
          SetBit(b, p % 8, q % 8);
        }
      }
    }

    /** free_pid. */
    method FreePid(p: nat)
      requires Valid() && p < PROC_MAX_NUM
      modifies bitmap
      ensures Used() == old(Used()) - {p}
    {
      var b := bitmap[p / 8];
      bitmap[p / 8] := b & !(1 << (p % 8));
      forall q: nat | q < PROC_MAX_NUM
        ensures InUse(q) <==> q != p && old(InUse(q))
      {
        if q / 8 == p / 8 {
          ClearBit(b, p % 8, q % 8);
        }
      }
    }
  }
}
