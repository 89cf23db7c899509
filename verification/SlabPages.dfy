/**
 Slab pages: a stack of free objects in each page, and three lists of pages for
 each cache, full, partial and free.
 */
module SlabPages {
  import opened Units
  import opened IntrusiveList
  import opened SlabGeometry

  /** The header of a slab page. Entries of `free` from `avail` on mean nothing. */
  datatype Slab = Slab(avail: nat, limit: nat, base: nat, cache: nat, free: seq<nat>) {
    ghost function Available(): seq<nat> {
      if avail <= |free| then free[..avail] else free
    }
  }

  const FULL: nat := 0
  const PARTIAL: nat := 1
  const FREE: nat := 2

  /** The list on which a slab page belongs: its number of available objects decides. */
  function ListOf(s: Slab): nat {
    3 * s.cache + if s.avail == 0 then FULL else if s.avail == s.limit then FREE else PARTIAL
  }

  lemma OnPartialList(s: Slab, cache: nat)
    requires s.avail <= s.limit
    ensures ListOf(s) == 3 * cache + PARTIAL <==> s.cache == cache && 0 < s.avail < s.limit
  {
  }

  ghost predicate IsPartial(slabs: map<nat, Slab>, cache: nat, p: nat) {
    p in slabs && slabs[p].cache == cache && 0 < slabs[p].avail < slabs[p].limit
  }

  /** The page has objects in use and objects available, unless no page of the cache is like that. */
  ghost predicate PartialFirst(slabs: map<nat, Slab>, cache: nat, page: nat) {
    IsPartial(slabs, cache, page) || forall p: nat :: !IsPartial(slabs, cache, p)
  }

  // ----- one page

  /** The addresses of the first `n` objects. */
  ghost function Slots(page: nat, size: nat, n: nat): set<nat>
    requires Fits(size)
  {
    if n == 0 then {} else Slots(page, size, n - 1) + {Slot(page, size, n - 1)}
  }

  lemma {:induction false} SlotsSize(page: nat, size: nat, n: nat)
    requires Fits(size)
    ensures |Slots(page, size, n)| <= n
  {
    if n > 0 {
      SlotsSize(page, size, n - 1);
    }
  }

  lemma {:induction false} SlotsMember(page: nat, size: nat, n: nat, o: nat) returns (i: nat)
    requires Fits(size) && o in Slots(page, size, n)
    ensures i < n && o == Slot(page, size, i)
  {
    if o == Slot(page, size, n - 1) {
      i := n - 1;
    } else {
      i := SlotsMember(page, size, n - 1, o);
    }
  }

  ghost function AllSlots(page: nat, size: nat): set<nat>
    requires Fits(size)
  {
    Slots(page, size, Limit(size))
  }

  ghost predicate SlabOk(sizes: seq<nat>, page: nat, s: Slab) {
    && s.cache < |sizes| && Fits(sizes[s.cache])
    && s.limit == Limit(sizes[s.cache]) == |s.free| && s.avail <= s.limit
    && s.base == ObjectBase(page, sizes[s.cache])
    && Distinct(s.Available())
    && forall o :: o in s.Available() ==> o in AllSlots(page, sizes[s.cache])
  }

  /** The objects of the page that are handed out: its slots that are not available. */
  ghost function Used(sizes: seq<nat>, page: nat, s: Slab): set<nat>
  {
    if SlabOk(sizes, page, s) then set o | o in AllSlots(page, sizes[s.cache]) && o !in s.Available() else {}
  }

  function Pop(s: Slab): Slab
    requires s.avail > 0
  {
    s.(avail := s.avail - 1)
  }

  function Push(s: Slab, o: nat): Slab
    requires s.avail < |s.free|
  {
    s.(free := s.free[s.avail := o], avail := s.avail + 1)
  }

  lemma PopUses(sizes: seq<nat>, page: nat, s: Slab)
    requires SlabOk(sizes, page, s) && s.avail > 0
    ensures var o := s.free[s.avail - 1];
            && o !in Used(sizes, page, s) && o in AllSlots(page, sizes[s.cache])
            && SlabOk(sizes, page, Pop(s)) && Used(sizes, page, Pop(s)) == Used(sizes, page, s) + {o}
  {
    var o := s.free[s.avail - 1];
    assert s.Available() == Pop(s).Available() + [o];
  }

  lemma {:induction false} DistinctSize(s: seq<nat>, t: set<nat>)
    requires Distinct(s) && forall o :: o in s ==> o in t
    ensures |s| <= |t|
  {
    if s != [] {
      var last := s[|s| - 1];
      DistinctSize(s[..|s| - 1], t - {last});
    }
  }

  /** Freeing a used object does not overflow the stack of free objects. */
  lemma RoomToPush(sizes: seq<nat>, page: nat, s: Slab, o: nat)
    requires SlabOk(sizes, page, s) && o in Used(sizes, page, s)
    ensures s.avail < s.limit
  {
    var more := s.Available() + [o];
    assert Distinct(more);
    DistinctSize(more, AllSlots(page, sizes[s.cache]));
    SlotsSize(page, sizes[s.cache], s.limit);
  }

  lemma PushFrees(sizes: seq<nat>, page: nat, s: Slab, o: nat)
    requires SlabOk(sizes, page, s) && o in Used(sizes, page, s)
    ensures s.avail < |s.free| && SlabOk(sizes, page, Push(s, o))
    ensures Used(sizes, page, Push(s, o)) == Used(sizes, page, s) - {o}
  {
    RoomToPush(sizes, page, s, o);
    assert Push(s, o).Available() == s.Available() + [o];
  }

  // ----- all pages

  ghost predicate SlabsOk(sizes: seq<nat>, slabs: map<nat, Slab>) {
    forall p :: p in slabs ==> SlabOk(sizes, p, slabs[p])
  }

  /** The used objects of all pages. */
  ghost function Live(sizes: seq<nat>, slabs: map<nat, Slab>): iset<nat> {
    iset o: nat | o / PAGE_SIZE in slabs && o in Used(sizes, o / PAGE_SIZE, slabs[o / PAGE_SIZE])
  }

  lemma UsedPage(sizes: seq<nat>, page: nat, s: Slab, o: nat)
    requires SlabOk(sizes, page, s) && o in AllSlots(page, sizes[s.cache])
    ensures o / PAGE_SIZE == page && o > 0
  {
    var i := SlotsMember(page, sizes[s.cache], s.limit, o);
    SlotInPage(page, sizes[s.cache], i);
  }

  /** Changing one page changes the live objects as it changes those of the page. */
  lemma LiveUpdate(sizes: seq<nat>, slabs: map<nat, Slab>, page: nat, s: Slab)
    requires SlabsOk(sizes, slabs) && SlabOk(sizes, page, s)
    ensures SlabsOk(sizes, slabs[page := s])
    ensures forall o: nat :: o in Live(sizes, slabs[page := s]) <==>
                        if o / PAGE_SIZE == page then o in Used(sizes, page, s) else o in Live(sizes, slabs)
  {
  }

  lemma LivePop(sizes: seq<nat>, slabs: map<nat, Slab>, page: nat, o: nat)
    requires SlabsOk(sizes, slabs) && page in slabs && slabs[page].avail > 0
    requires o == slabs[page].free[slabs[page].avail - 1]
    ensures o !in Live(sizes, slabs) && o / PAGE_SIZE == page && o > 0 && SlabOk(sizes, page, Pop(slabs[page]))
    ensures Live(sizes, slabs[page := Pop(slabs[page])]) == Live(sizes, slabs) + iset{o}
  {
    var s := slabs[page];
    PopUses(sizes, page, s);
    UsedPage(sizes, page, s, o);
    LiveUpdate(sizes, slabs, page, Pop(s));
  }

  lemma LivePush(sizes: seq<nat>, slabs: map<nat, Slab>, o: nat)
    requires SlabsOk(sizes, slabs) && o in Live(sizes, slabs)
    ensures var page := o / PAGE_SIZE;
            var s := slabs[page];
            && s.avail < |s.free| && SlabOk(sizes, page, Push(s, o))
            && Live(sizes, slabs[page := Push(s, o)]) == Live(sizes, slabs) - iset{o}
  {
    var s := slabs[o / PAGE_SIZE];
    PushFrees(sizes, o / PAGE_SIZE, s, o);
    LiveUpdate(sizes, slabs, o / PAGE_SIZE, Push(s, o));
  }

  /** A page of which no object is used adds no live object. */
  lemma LiveNewPage(sizes: seq<nat>, slabs: map<nat, Slab>, page: nat, s: Slab)
    requires SlabsOk(sizes, slabs) && page !in slabs && SlabOk(sizes, page, s) && Used(sizes, page, s) == {}
    ensures Live(sizes, slabs[page := s]) == Live(sizes, slabs)
  {
    LiveUpdate(sizes, slabs, page, s);
  }

  /** Which cache an address belongs to: the header found by masking says so. */
  function Owner(slabs: map<nat, Slab>, o: nat): nat
    requires o / PAGE_SIZE in slabs
  {
    slabs[o / PAGE_SIZE].cache
  }

  /** Live objects do not overlap, stay inside their page and clear of its header. */
  lemma LiveObjectsApart(sizes: seq<nat>, slabs: map<nat, Slab>, o: nat, q: nat)
    requires SlabsOk(sizes, slabs) && o in Live(sizes, slabs) && q in Live(sizes, slabs) && o < q
    ensures o + sizes[Owner(slabs, o)] <= q
    ensures q % PAGE_SIZE >= HEADER_SIZE && q % PAGE_SIZE + sizes[Owner(slabs, q)] <= PAGE_SIZE
  {
    var s, t := slabs[o / PAGE_SIZE], slabs[q / PAGE_SIZE];
    var i := SlotsMember(o / PAGE_SIZE, sizes[s.cache], s.limit, o);
    var j := SlotsMember(q / PAGE_SIZE, sizes[t.cache], t.limit, q);
    SlotInPage(o / PAGE_SIZE, sizes[s.cache], i);
    SlotInPage(q / PAGE_SIZE, sizes[t.cache], j);
    if o / PAGE_SIZE == q / PAGE_SIZE {
      if j < i {
        SlotsApart(o / PAGE_SIZE, sizes[s.cache], j, i);
      } else {
        SlotsApart(o / PAGE_SIZE, sizes[s.cache], i, j);
      }
    }
  }

  // ----- the lists

  /** Every page is on the list its header calls for, and on no other. */
  ghost predicate Listed(slabs: map<nat, Slab>, lists: seq<seq<nat>>) {
    && (forall p :: p in slabs ==> ListOf(slabs[p]) < |lists| && p in lists[ListOf(slabs[p])])
    && (forall k, p :: 0 <= k < |lists| && p in lists[k] ==> p in slabs && ListOf(slabs[p]) == k)
  }

  /** The first page of a cache's partial list goes before all others; without one no page is partial. */
  lemma PartialListed(sizes: seq<nat>, slabs: map<nat, Slab>, lists: seq<seq<nat>>, cache: nat)
    requires SlabsOk(sizes, slabs) && Listed(slabs, lists) && cache < |sizes| && |lists| == 3 * |sizes|
    ensures if lists[3 * cache + PARTIAL] == [] then forall p: nat :: PartialFirst(slabs, cache, p)
            else PartialFirst(slabs, cache, lists[3 * cache + PARTIAL][0])
  {
    var list := lists[3 * cache + PARTIAL];
    if list == [] {
      forall p: nat
        ensures !IsPartial(slabs, cache, p)
      {
        NotListed(slabs, lists, cache, p);
      }
    } else {
      assert list[0] in list;
      assert SlabOk(sizes, list[0], slabs[list[0]]);
      OnPartialList(slabs[list[0]], cache);
    }
  }

  lemma NotListed(slabs: map<nat, Slab>, lists: seq<seq<nat>>, cache: nat, p: nat)
    requires Listed(slabs, lists) && 3 * cache + PARTIAL < |lists| && lists[3 * cache + PARTIAL] == []
    ensures !IsPartial(slabs, cache, p)
  {
    if p in slabs && slabs[p].avail <= slabs[p].limit {
      OnPartialList(slabs[p], cache);
    }
  }

  /** `page` is now on list `k` only; nothing else changed lists. */
  ghost predicate MovedTo(lists: seq<seq<nat>>, lists': seq<seq<nat>>, page: nat, k: nat) {
    && |lists'| == |lists|
    && forall j, n :: 0 <= j < |lists| ==> (n in lists'[j] <==> (j == k && n == page) || (n != page && n in lists[j]))
  }

  lemma Relist(slabs: map<nat, Slab>, lists: seq<seq<nat>>, lists': seq<seq<nat>>, page: nat, s: Slab)
    requires Listed(slabs, lists) && MovedTo(lists, lists', page, ListOf(s)) && ListOf(s) < |lists|
    ensures Listed(slabs[page := s], lists')
  {
  }

  /** Nothing moves when the header still calls for the same list. */
  lemma StaysListed(slabs: map<nat, Slab>, lists: seq<seq<nat>>, page: nat, s: Slab)
    requires Listed(slabs, lists) && page in slabs && ListOf(s) == ListOf(slabs[page])
    ensures Listed(slabs[page := s], lists)
  {
  }

  ghost predicate SameOwners(slabs: map<nat, Slab>, slabs': map<nat, Slab>) {
    forall p :: p in slabs ==> p in slabs' && slabs'[p].cache == slabs[p].cache
  }

  lemma HeaderStored(slabs: map<nat, Slab>, page: nat, s: Slab)
    requires page in slabs && s.cache == slabs[page].cache
    ensures slabs[page := s].Keys == slabs.Keys && SameOwners(slabs, slabs[page := s])
  {
  }

  lemma InsertedMoves(lists: seq<seq<nat>>, page: nat, k: nat)
    requires k < |lists| && forall j :: 0 <= j < |lists| ==> page !in lists[j]
    ensures MovedTo(lists, lists[k := [page] + lists[k]], page, k)
  {
  }

  lemma RemovedMoves(base: nat, lists: seq<seq<nat>>, page: nat, j: nat, i: nat, k: nat)
    requires Separate(base, lists) && j < |lists| && i < |lists[j]| && lists[j][i] == page && k < |lists|
    ensures var without := lists[j := RemoveAt(lists[j], i)];
            MovedTo(lists, without[k := [page] + without[k]], page, k)
  {
    RemovedMembers(lists[j], i);
    var without := lists[j := RemoveAt(lists[j], i)];
    forall m, n | 0 <= m < |lists|
      ensures n in without[m] <==> n != page && n in lists[m]
    {
    }
  }

  /** An empty page's header, its stack filled from the first object to the last. */
  ghost function Filled(page: nat, size: nat, n: nat): seq<nat>
    requires Fits(size)
  {
    if n == 0 then [] else Filled(page, size, n - 1) + [Slot(page, size, n - 1)]
  }

  lemma {:induction false} FilledHasSlots(page: nat, size: nat, n: nat)
    requires Fits(size)
    ensures |Filled(page, size, n)| == n && Distinct(Filled(page, size, n))
    ensures forall o :: o in Filled(page, size, n) <==> o in Slots(page, size, n)
  {
    if n > 0 {
      FilledHasSlots(page, size, n - 1);
      if Slot(page, size, n - 1) in Slots(page, size, n - 1) {
        var i := SlotsMember(page, size, n - 1, Slot(page, size, n - 1));
        SlotsApart(page, size, i, n - 1);
      }
    }
  }

  lemma NewPageOk(sizes: seq<nat>, page: nat, s: Slab)
    requires s.cache < |sizes| && Fits(sizes[s.cache]) && s.limit == s.avail == Limit(sizes[s.cache])
    requires s.base == ObjectBase(page, sizes[s.cache]) && s.free == Filled(page, sizes[s.cache], s.limit)
    ensures SlabOk(sizes, page, s) && Used(sizes, page, s) == {} && s.limit >= 1 && ListOf(s) == 3 * s.cache + FREE
  {
    LayoutFits(sizes[s.cache]);
    FilledHasSlots(page, sizes[s.cache], s.limit);
    assert s.Available() == s.free;
  }

  /** Keeps `Valid` closed: what it says is in view only where a key is stated. */
  ghost predicate SlabKey(k: int) {
    true
  }

  class Slabs {
    const sizes: seq<nat>
    const links: Links
    var slabs: map<nat, Slab>

    /** No pages yet: three empty lists for each cache; `pages` bounds the page numbers. */
    constructor (sizes: seq<nat>, pages: nat)
      ensures Valid() && this.sizes == sizes && links.base == pages && slabs == map[] && fresh(Frame() - {this})
    {
      this.sizes := sizes;
      slabs := map[];
      links := new Links(pages, 3 * |sizes|);
      new;
      assert Intact();
    }

    ghost function Frame(): set<object> {
      {this, links, links.next, links.prev}
    }

    ghost predicate Intact()
      reads this`slabs, links, links.next, links.prev
    {
      links.Valid() && links.count == 3 * |sizes| && SlabsOk(sizes, slabs) && Listed(slabs, links.lists)
    }

    ghost predicate Valid()
      reads this`slabs, links, links.next, links.prev
    {
      forall k {:trigger SlabKey(k)} :: SlabKey(k) ==> Intact()
    }

    lemma Open()
      requires Valid()
      ensures Intact()
    {
      assert SlabKey(0);
    }

    /** slab_list_remove, then slab_list_insert. */
    method Relink(page: nat, k: nat, ghost j: nat)
      requires links.Valid() && j < links.count && k < links.count && page in links.lists[j]
      modifies links, links.next, links.prev
      ensures links.Valid() && MovedTo(old(links.lists), links.lists, page, k)
    {
      ghost var i :| 0 <= i < |links.lists[j]| && links.lists[j][i] == page;
      RemovedMoves(links.base, links.lists, page, j, i, k);
      links.Remove(page, j, i);
      links.InsertHead(k, page);
    }

    /** Stores a header and moves its page to the list the header calls for. */
    method MoveTo(page: nat, s: Slab, k: nat)
      requires Intact() && page in slabs && SlabOk(sizes, page, s) && k == ListOf(s)
      modifies this`slabs, links, links.next, links.prev
      ensures Intact() && slabs == old(slabs)[page := s]
    {
      ghost var lists0 := links.lists;
      Relink(page, k, ListOf(slabs[page]));
      Relist(slabs, lists0, links.lists, page, s);
      slabs := slabs[page := s];
    }

    /** Stores a header that calls for the list its page is on. */
    method StayWith(page: nat, s: Slab)
      requires Intact() && page in slabs && SlabOk(sizes, page, s) && ListOf(s) == ListOf(slabs[page])
      modifies this`slabs
      ensures Intact() && slabs == old(slabs)[page := s]
    {
      StaysListed(slabs, links.lists, page, s);
      slabs := slabs[page := s];
    }

    /** alloc_object_from_slab. A page with nothing available is its first panic. */
    method AllocFromSlab(page: nat) returns (obj: nat)
      requires Intact() && page in slabs && slabs[page].avail > 0
      modifies this`slabs, links, links.next, links.prev
      ensures Intact() && slabs.Keys == old(slabs.Keys) && SameOwners(old(slabs), slabs)
      ensures obj / PAGE_SIZE == page && obj > 0 && obj !in old(Live(sizes, slabs))
      ensures Live(sizes, slabs) == old(Live(sizes, slabs)) + iset{obj}
    {
      var s := Pop(slabs[page]);
      obj := slabs[page].free[slabs[page].avail - 1];
      LivePop(sizes, slabs, page, obj);
      HeaderStored(slabs, page, s);
      if s.avail == 0 {
        MoveTo(page, s, 3 * s.cache + FULL);
      } else if s.avail + 1 == s.limit {
        MoveTo(page, s, 3 * s.cache + PARTIAL);
      } else {
        StayWith(page, s);
      }
    }

    /** alloc_object_from_slab_list, on the partial or the free list of a cache; 0 if the list is empty. */
    method AllocFromList(cache: nat, which: nat) returns (obj: nat)
      requires Intact() && cache < |sizes| && FULL < which <= FREE
      modifies this`slabs, links, links.next, links.prev
      ensures Intact() && slabs.Keys == old(slabs.Keys) && SameOwners(old(slabs), slabs)
      ensures obj == 0 <==> old(links.lists)[3 * cache + which] == []
      ensures obj == 0 ==> slabs == old(slabs) && links.lists == old(links.lists)
      ensures obj != 0 ==>
        && obj !in old(Live(sizes, slabs)) && Live(sizes, slabs) == old(Live(sizes, slabs)) + iset{obj}
        && obj / PAGE_SIZE in slabs && Owner(slabs, obj) == cache
        && obj / PAGE_SIZE == old(links.lists)[3 * cache + which][0]
    {
      obj := 0;
      var first := links.First(3 * cache + which);
      if first != links.base + 3 * cache + which {
        FirstListed(cache, which);
        obj := AllocFromSlab(first);
      }
    }

    /** A page on the partial or the free list of a cache is the cache's, and has an object available. */
    lemma FirstListed(cache: nat, which: nat)
      requires Intact() && cache < |sizes| && FULL < which <= FREE && links.lists[3 * cache + which] != []
      ensures var p := links.lists[3 * cache + which][0];
              p in slabs && slabs[p].cache == cache && slabs[p].avail > 0
    {
      var p := links.lists[3 * cache + which][0];
      assert p in links.lists[3 * cache + which];
      assert SlabOk(sizes, p, slabs[p]);
      LayoutFits(sizes[slabs[p].cache]);
    }

    /** The cache has no object left on any of its pages. */
    ghost predicate Exhausted(cache: nat)
      reads this`slabs
    {
      forall p :: p in slabs && slabs[p].cache == cache ==> slabs[p].avail == 0
    }

    lemma ListsSayExhausted(cache: nat)
      requires Intact() && cache < |sizes|
      ensures Exhausted(cache) <==> links.lists[3 * cache + PARTIAL] == [] && links.lists[3 * cache + FREE] == []
    {
      if links.lists[3 * cache + PARTIAL] != [] {
        FirstListed(cache, PARTIAL);
      } else if links.lists[3 * cache + FREE] != [] {
        FirstListed(cache, FREE);
      } else {
        forall p | p in slabs && slabs[p].cache == cache
          ensures slabs[p].avail == 0
        {
          assert p in links.lists[ListOf(slabs[p])];
        }
      }
    }

    /** alloc_object on the pages there are: partial pages first, then free ones; 0 if the cache is exhausted. */
    method AllocAvailable(cache: nat) returns (obj: nat)
      requires Intact() && cache < |sizes|
      modifies this`slabs, links, links.next, links.prev
      ensures Intact() && slabs.Keys == old(slabs.Keys) && SameOwners(old(slabs), slabs)
      ensures obj == 0 <==> old(Exhausted(cache))
      ensures obj == 0 ==> slabs == old(slabs)
      ensures obj != 0 ==>
        && obj !in old(Live(sizes, slabs)) && Live(sizes, slabs) == old(Live(sizes, slabs)) + iset{obj}
        && obj / PAGE_SIZE in slabs && Owner(slabs, obj) == cache
        && PartialFirst(old(slabs), cache, obj / PAGE_SIZE)
    {
      ListsSayExhausted(cache);
      PartialListed(sizes, slabs, links.lists, cache);
      obj := AllocFromList(cache, PARTIAL);
      if obj == 0 {
        obj := AllocFromList(cache, FREE);
      }
    }

    /** free_object. The header found by masking the address must name the cache: otherwise free_object panics. */
    method FreeObject(cache: nat, obj: nat)
      requires Intact() && obj in Live(sizes, slabs) && Owner(slabs, obj) == cache
      modifies this`slabs, links, links.next, links.prev
      ensures Intact() && slabs.Keys == old(slabs.Keys) && SameOwners(old(slabs), slabs)
      ensures Live(sizes, slabs) == old(Live(sizes, slabs)) - iset{obj}
    {
      var page := obj / PAGE_SIZE;
      LivePush(sizes, slabs, obj);
      var s := Push(slabs[page], obj);
      HeaderStored(slabs, page, s);
      if s.avail == 1 && s.avail < s.limit {
        MoveTo(page, s, 3 * cache + PARTIAL);
      } else if s.avail == s.limit {
        MoveTo(page, s, 3 * cache + FREE);
      } else {
        StayWith(page, s);
      }
    }

    /** init_slab_page, on a page that is not a slab page. */
    method InitSlabPage(cache: nat, page: nat)
      requires Intact() && cache < |sizes| && Fits(sizes[cache]) && page !in slabs && page < links.base
      modifies this`slabs, links, links.next, links.prev
      ensures Intact() && slabs.Keys == old(slabs.Keys) + {page} && slabs[page].cache == cache
      ensures SameOwners(old(slabs), slabs) && slabs[page].avail == slabs[page].limit > 0
      ensures Live(sizes, slabs) == old(Live(sizes, slabs))
      ensures links.lists[3 * cache + FREE] != [] && links.lists[3 * cache + FREE][0] == page
    {
      var s := FillStack(cache, page);
      NewPageOk(sizes, page, s);
      LiveNewPage(sizes, slabs, page, s);
      NotListed(page);
      InsertedMoves(links.lists, page, 3 * cache + FREE);
      Relist(slabs, links.lists, links.lists[3 * cache + FREE := [page] + links.lists[3 * cache + FREE]], page, s);
      slabs := slabs[page := s];
      links.InsertHead(3 * cache + FREE, page);
    }

    lemma NotListed(page: nat)
      requires Intact() && page !in slabs && page < links.base
      ensures links.Unlinked(page)
    {
    }

    /** The header and the stack of free objects of a new slab page. */
    method FillStack(cache: nat, page: nat) returns (s: Slab)
      requires cache < |sizes| && Fits(sizes[cache])
      ensures s.cache == cache && s.limit == s.avail == Limit(sizes[cache])
      ensures s.base == ObjectBase(page, sizes[cache]) && s.free == Filled(page, sizes[cache], s.limit)
    {
      var size := sizes[cache];
      var limit := Limit(size);
      var base := ObjectBase(page, size);
      var free: seq<nat> := [];
      var at := base;
      while |free| < limit
        invariant |free| <= limit && free == Filled(page, size, |free|)
        invariant at == base + Times(size, |free|)
      {
        TimesAdds(size, |free|, |free| + 1);
        free := free + [at];
        at := at + size;
      }
      s := Slab(limit, limit, base, cache, free);
    }

    /** Takes the first page of a list off it; slab_list_destroy does so until the list is empty. */
    method DropFirst(k: nat) returns (page: nat)
      requires Intact() && k < links.count && links.lists[k] != []
      modifies this`slabs, links, links.next, links.prev
      ensures Intact() && page in old(slabs) && ListOf(old(slabs)[page]) == k && slabs == old(slabs) - {page}
      ensures links.lists == old(links.lists)[k := old(links.lists)[k][1..]]
    {
      page := links.First(k);
      assert page in links.lists[k];
      DroppedListed(slabs, links.lists, links.base, k);
      links.Remove(page, k, 0);
      slabs := slabs - {page};
      assert RemoveAt(old(links.lists)[k], 0) == old(links.lists)[k][1..];
    }
  }

  lemma DroppedListed(slabs: map<nat, Slab>, lists: seq<seq<nat>>, base: nat, k: nat)
    requires Listed(slabs, lists) && Separate(base, lists) && k < |lists| && lists[k] != []
    ensures Listed(slabs - {lists[k][0]}, lists[k := RemoveAt(lists[k], 0)])
  {
    RemovedMembers(lists[k], 0);
  }
}
