/** The order in which the loader maps pages, and how it ends: with all of them mapped, or without, or in a panic. */
module LoadOrder {
  import opened Units
  import opened Bytes
  import opened AddressSpace
  import opened UserImages
  import opened UserTables
  import opened ElfFile

  /** What the loader does next: map a page, or give up because a header fails its checks. */
  datatype Attempt = Try(v: nat) | Reject

  /** `Remapped`: a page that is mapped already was to be mapped again, where vmm_map panics. */
  datatype Loading = Loaded | Refused | Remapped

  ghost function PagesOf(attempts: seq<Attempt>): (pages: set<nat>)
    ensures forall v: nat :: v in pages <==> Try(v) in attempts
  {
    set a | a in attempts && a.Try? :: a.v
  }

  /**
   How a sequence of attempts ends that began with `free` pages free and has `pages` mapped. Each takes a
   frame first, and finds out then whether the page is mapped already.
   */
  ghost function Outcome(free: nat, pages: set<nat>, attempts: seq<Attempt>): Loading
    decreases |attempts|
  {
    if attempts == [] then Loaded
    else
      match attempts[0]
      case Reject => Refused
      case Try(v) =>
        if v in pages then (if free <= Weight(pages) then Refused else Remapped)
        else if free < Weight(pages + {v}) then Refused
        else Outcome(free, pages + {v}, attempts[1..])
  }

  lemma PagesOfNext(a: Attempt, rest: seq<Attempt>)
    ensures PagesOf([a] + rest) == PagesOf(rest) + if a.Try? then {a.v} else {}
  {
    forall v: nat
      ensures Try(v) in [a] + rest <==> Try(v) in rest || a == Try(v)
    {
    }
  }

  /** One sequence of attempts after another. */
  lemma {:induction false} OutcomeThen(free: nat, pages: set<nat>, a: seq<Attempt>, b: seq<Attempt>)
    ensures var first := Outcome(free, pages, a);
            Outcome(free, pages, a + b) == if first == Loaded then Outcome(free, pages + PagesOf(a), b) else first
    decreases |a|
  {
    if a == [] {
      assert a + b == b && PagesOf(a) == {} && pages + {} == pages;
    } else {
      assert a == [a[0]] + a[1..] && (a + b)[1..] == a[1..] + b;
      PagesOfNext(a[0], a[1..]);
      if a[0].Try? {
        OutcomeThen(free, pages + {a[0].v}, a[1..], b);
        assert pages + PagesOf(a) == pages + {a[0].v} + PagesOf(a[1..]);
      }
    }
  }

  /** Keeps `Ending` closed: what it says is in view only where a key is stated. */
  ghost predicate EndKey(k: int) {
    true
  }

  ghost predicate IsEnding(out: Loading, free: nat, pages: set<nat>, attempts: seq<Attempt>) {
    forall k {:trigger EndKey(k)} :: EndKey(k) ==> out == Outcome(free, pages, attempts)
  }

  /** The outcome, for use where it is only passed on. */
  ghost function Ending(free: nat, pages: set<nat>, attempts: seq<Attempt>): Loading {
    assert IsEnding(Outcome(free, pages, attempts), free, pages, attempts);
    var out :| IsEnding(out, free, pages, attempts);
    out
  }

  lemma EndingIs(free: nat, pages: set<nat>, attempts: seq<Attempt>)
    ensures Ending(free, pages, attempts) == Outcome(free, pages, attempts)
  {
    assert EndKey(0);
  }

  lemma EndingThen(free: nat, pages: set<nat>, a: seq<Attempt>, b: seq<Attempt>)
    ensures var first := Ending(free, pages, a);
            Ending(free, pages, a + b) == if first == Loaded then Ending(free, pages + PagesOf(a), b) else first
  {
    EndingIs(free, pages, a);
    EndingIs(free, pages, a + b);
    EndingIs(free, pages + PagesOf(a), b);
    OutcomeThen(free, pages, a, b);
  }

  // ----- in closed form

  ghost predicate NoReject(attempts: seq<Attempt>) {
    Reject !in attempts
  }

  ghost predicate Once(attempts: seq<Attempt>) {
    forall i, j :: 0 <= i < j < |attempts| && attempts[i].Try? ==> attempts[i] != attempts[j]
  }

  lemma OnceNext(a: Attempt, rest: seq<Attempt>)
    requires a.Try?
    ensures Once([a] + rest) <==> Once(rest) && a !in rest
  {
    var all := [a] + rest;
    if Once(all) {
      forall i, j | 0 <= i < j < |rest| && rest[i].Try?
        ensures rest[i] != rest[j]
      {
        assert all[i + 1] != all[j + 1];
      }
      forall j | 0 <= j < |rest|
        ensures rest[j] != a
      {
        assert all[0] != all[j + 1];
      }
    }
  }

  /** No header fails, no page comes twice or is mapped already, and memory suffices. */
  ghost predicate Fits(free: nat, pages: set<nat>, attempts: seq<Attempt>) {
    && NoReject(attempts) && Once(attempts) && pages !! PagesOf(attempts)
    && free >= Weight(pages + PagesOf(attempts))
  }

  lemma FitsNext(free: nat, pages: set<nat>, a: Attempt, rest: seq<Attempt>)
    requires a.Try? && a.v !in pages
    ensures Fits(free, pages, [a] + rest) <==> Fits(free, pages + {a.v}, rest)
  {
    PagesOfNext(a, rest);
    OnceNext(a, rest);
    assert pages + PagesOf([a] + rest) == pages + {a.v} + PagesOf(rest);
    assert NoReject([a] + rest) <==> NoReject(rest);
  }

  lemma FitsFirst(free: nat, pages: set<nat>, a: Attempt, rest: seq<Attempt>)
    requires Fits(free, pages, [a] + rest)
    ensures a.Try? && a.v !in pages && free >= Weight(pages + {a.v})
  {
    assert a in [a] + rest;
    PagesOfNext(a, rest);
    WeightMonotone(pages + {a.v}, pages + PagesOf([a] + rest));
  }

  lemma {:induction false} LoadsAfter(free: nat, pages: set<nat>, attempts: seq<Attempt>)
    requires free >= Weight(pages)
    ensures Outcome(free, pages, attempts) == Loaded <==> Fits(free, pages, attempts)
    decreases |attempts|
  {
    if attempts == [] {
      assert PagesOf(attempts) == {} && pages + {} == pages;
    } else {
      var a, rest := attempts[0], attempts[1..];
      assert attempts == [a] + rest;
      if a.Try? && a.v !in pages && free >= Weight(pages + {a.v}) {
        FitsNext(free, pages, a, rest);
        LoadsAfter(free, pages + {a.v}, rest);
      } else if Fits(free, pages, attempts) {
        FitsFirst(free, pages, a, rest);
      }
    }
  }

  /** Everything is mapped exactly if no header fails, no page comes twice, and memory suffices. */
  lemma LoadsExactly(free: nat, attempts: seq<Attempt>)
    requires free >= Weight({})
    ensures Outcome(free, {}, attempts) == Loaded <==>
            NoReject(attempts) && Once(attempts) && free >= Weight(PagesOf(attempts))
  {
    LoadsAfter(free, {}, attempts);
    assert {} + PagesOf(attempts) == PagesOf(attempts);
  }

  /** Attempt `i` is a page mapped before, no header before it fails, and there is a frame left for it. */
  ghost predicate RemapsAt(free: nat, pages: set<nat>, attempts: seq<Attempt>, i: nat) {
    && i < |attempts| && attempts[i].Try? && NoReject(attempts[..i])
    && attempts[i].v in pages + PagesOf(attempts[..i]) && free > Weight(pages + PagesOf(attempts[..i]))
  }

  lemma RemapsAtNext(free: nat, pages: set<nat>, a: Attempt, rest: seq<Attempt>, i: nat)
    requires a.Try?
    ensures RemapsAt(free, pages, [a] + rest, i + 1) <==> RemapsAt(free, pages + {a.v}, rest, i)
  {
    var all := [a] + rest;
    if i < |rest| {
      assert all[..i + 1] == [a] + rest[..i] && all[i + 1] == rest[i];
      PagesOfNext(a, rest[..i]);
      assert pages + PagesOf(all[..i + 1]) == pages + {a.v} + PagesOf(rest[..i]);
      assert NoReject(all[..i + 1]) <==> NoReject(rest[..i]);
    }
  }

  lemma RemapsFirst(free: nat, pages: set<nat>, attempts: seq<Attempt>)
    requires attempts != []
    ensures RemapsAt(free, pages, attempts, 0) <==>
            attempts[0].Try? && attempts[0].v in pages && free > Weight(pages)
  {
    assert attempts[..0] == [] && PagesOf([]) == {} && pages + {} == pages;
  }

  lemma {:induction false} RemapsAfter(free: nat, pages: set<nat>, attempts: seq<Attempt>)
    ensures Outcome(free, pages, attempts) == Remapped <==> exists i: nat :: RemapsAt(free, pages, attempts, i)
    decreases |attempts|
  {
    if attempts != [] {
      var a, rest := attempts[0], attempts[1..];
      assert attempts == [a] + rest;
      RemapsFirst(free, pages, attempts);
      if a.Try? && a.v !in pages {
        RemapsAfter(free, pages + {a.v}, rest);
        forall i: nat
          ensures RemapsAt(free, pages, attempts, i) <==> i > 0 && RemapsAt(free, pages + {a.v}, rest, i - 1)
        {
          if i > 0 {
            RemapsAtNext(free, pages, a, rest, i - 1);
          }
        }
        if Outcome(free, pages, attempts) == Remapped {
          var i: nat :| RemapsAt(free, pages + {a.v}, rest, i);
          assert RemapsAt(free, pages, attempts, i + 1);
        }
        NoRemapWhenShort(free, pages + {a.v}, rest);
      } else {
        NothingBehind(free, pages, attempts);
      }
    }
  }

  /** Where memory is short already, no page is mapped again. */
  lemma NoRemapWhenShort(free: nat, pages: set<nat>, attempts: seq<Attempt>)
    ensures free < Weight(pages) ==> forall i: nat :: !RemapsAt(free, pages, attempts, i)
  {
    forall i: nat | RemapsAt(free, pages, attempts, i)
      ensures free >= Weight(pages)
    {
      WeightMonotone(pages, pages + PagesOf(attempts[..i]));
    }
  }

  /** A first attempt that is a failing header, or a page mapped already, decides. */
  lemma NothingBehind(free: nat, pages: set<nat>, attempts: seq<Attempt>)
    requires attempts != [] && (attempts[0].Reject? || attempts[0].v in pages)
    ensures forall i: nat :: RemapsAt(free, pages, attempts, i) ==> RemapsAt(free, pages, attempts, 0)
  {
    RemapsFirst(free, pages, attempts);
    forall i: nat | RemapsAt(free, pages, attempts, i) && i > 0
      ensures RemapsAt(free, pages, attempts, 0)
    {
      assert attempts[0] == attempts[..i][0];
      WeightMonotone(pages, pages + PagesOf(attempts[..i]));
    }
  }

  /** The loader panics exactly if it comes, with a frame left, to a page that it has mapped before. */
  lemma RemapsExactly(free: nat, attempts: seq<Attempt>)
    ensures Outcome(free, {}, attempts) == Remapped <==> exists i: nat :: RemapsAt(free, {}, attempts, i)
  {
    RemapsAfter(free, {}, attempts);
  }

  /** With enough memory and no failing header, it panics exactly if a page comes twice. */
  lemma RemapsIfTwice(free: nat, attempts: seq<Attempt>)
    requires NoReject(attempts) && free > Weight(PagesOf(attempts))
    ensures Outcome(free, {}, attempts) == Remapped <==> !Once(attempts)
  {
    assert {} <= PagesOf(attempts);
    WeightMonotone({}, PagesOf(attempts));
    LoadsExactly(free, attempts);
    NotRefused(free, {}, attempts);
    assert {} + PagesOf(attempts) == PagesOf(attempts);
  }

  lemma {:induction false} NotRefused(free: nat, pages: set<nat>, attempts: seq<Attempt>)
    requires NoReject(attempts) && free > Weight(pages + PagesOf(attempts))
    ensures Outcome(free, pages, attempts) != Refused
    decreases |attempts|
  {
    if attempts != [] {
      var a, rest := attempts[0], attempts[1..];
      assert attempts == [a] + rest;
      assert a in attempts && forall x :: x in rest ==> x in attempts;
      PagesOfNext(a, rest);
      MoreThan(free, pages, a.v, PagesOf(rest), PagesOf(attempts));
      if a.v !in pages {
        NotRefused(free, pages + {a.v}, rest);
      }
    }
  }

  lemma MoreThan(free: nat, pages: set<nat>, v: nat, rest: set<nat>, all: set<nat>)
    requires all == rest + {v} && free > Weight(pages + all)
    ensures free > Weight(pages) && free > Weight(pages + {v}) && free > Weight(pages + {v} + rest)
  {
    WeightMonotone(pages, pages + all);
    WeightMonotone(pages + {v}, pages + all);
    assert pages + {v} + rest == pages + all;
  }
}
