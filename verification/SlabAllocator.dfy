/** The slab allocator over the page allocator: caches of objects, kmalloc and kfree. */
module SlabAllocator {
  import opened Units
  import opened BuddyPartition
  import opened PageAllocator
  import opened FrameOwnership
  import opened SlabGeometry
  import SlabPages

  /** Object sizes of the kmalloc caches, which come first. */
  const KMALLOC_SIZES: seq<nat> := [4, 8, 16, 32, 64, 128, 256, 512, 1024]

  /** kmalloc_index, for sizes it does not panic on. */
  function KmallocIndex(size: nat): (i: nat)
    requires size <= 1024
    ensures i < |KMALLOC_SIZES| && size <= KMALLOC_SIZES[i]
    ensures forall j :: 0 <= j < i ==> KMALLOC_SIZES[j] < size
  {
    if size <= 4 then 0
    else if size <= 8 then 1
    else if size <= 16 then 2
    else if size <= 32 then 3
    else if size <= 64 then 4
    else if size <= 128 then 5
    else if size <= 256 then 6
    else if size <= 512 then 7
    else 8
  }

  ghost predicate PagesOwned(m: Partition, total: nat, pages: set<nat>) {
    forall p :: p in pages ==> p != 0 && p < total && IsLive(m, p, 0)
  }

  lemma OwnedPagesStay(m0: Partition, m: Partition, total: nat, f: nat, pages: set<nat>)
    requires PagesOwned(m0, total, pages) && Took(m0, m, multiset{f}) && f != 0 && f < total
    ensures f !in pages && PagesOwned(m, total, pages + {f})
  {
    assert f in multiset{f};
    assert forall p :: p in pages ==> IsLive(m0, p, 0);
    forall p | p in pages + {f}
      ensures IsLive(m, p, 0)
    {
      assert p in pages ==> IsLive(m0, p, 0);
    }
  }

  lemma OwnedPagesLess(m0: Partition, m: Partition, total: nat, f: nat, pages: set<nat>)
    requires PagesOwned(m0, total, pages) && Took(m, m0, multiset{f})
    ensures PagesOwned(m, total, pages - {f})
  {
  }

  class Allocator {
    const pmm: Pmm
    const pages: SlabPages.Slabs

    constructor (pmm: Pmm, sizes: seq<nat>)
      requires pmm.Valid()
      requires |sizes| >= |KMALLOC_SIZES| && sizes[..|KMALLOC_SIZES|] == KMALLOC_SIZES &&
               forall c :: 0 <= c < |sizes| ==> Fits(sizes[c])
      ensures Valid() && this.pmm == pmm && pages.sizes == sizes && Live() == iset{}
    {
      this.pmm := pmm;
      pages := new SlabPages.Slabs(sizes, pmm.total);
      new;
      pages.Open();
    }

    ghost predicate Valid()
      reads pmm.Frame(), pages.Frame()
    {
      && pmm.Valid() && pages.Valid() && pmm.Frame() !! pages.Frame()
      && |pages.sizes| >= |KMALLOC_SIZES| && pages.sizes[..|KMALLOC_SIZES|] == KMALLOC_SIZES
      && (forall c :: 0 <= c < |pages.sizes| ==> Fits(pages.sizes[c]))
      && pages.links.base == pmm.total && PagesOwned(pmm.part, pmm.total, pages.slabs.Keys)
    }

    /** The objects handed out and not yet freed. */
    ghost function Live(): iset<nat>
      reads pages`slabs
    {
      SlabPages.Live(pages.sizes, pages.slabs)
    }

    /** The cache that a live object is from. */
    function Owner(obj: nat): nat
      requires obj / PAGE_SIZE in pages.slabs
      reads pages`slabs
    {
      SlabPages.Owner(pages.slabs, obj)
    }

    /**
     slab_alloc. The object was not in use and is of the cache; nothing else changes use. A page is
     taken, and only one, when the cache has no object left; without a page, where alloc_object
     panics, 0 is returned and nothing has changed.
     */
    method AllocObject(cache: nat) returns (obj: nat, ghost page: nat)
      requires Valid() && cache < |pages.sizes|
      modifies pmm.Frame(), pages.Frame()
      ensures Valid() && SlabPages.SameOwners(old(pages.slabs), pages.slabs)
      ensures obj == 0 <==> old(pages.Exhausted(cache)) && !FreeRunExists(old(pmm.part), 0)
      ensures obj == 0 ==> pmm.part == old(pmm.part) && pages.slabs == old(pages.slabs)
      ensures obj != 0 ==>
        && obj !in old(Live()) && Live() == old(Live()) + iset{obj}
        && obj / PAGE_SIZE in pages.slabs && Owner(obj) == cache
      ensures page == 0 && obj != 0 ==> SlabPages.PartialFirst(old(pages.slabs), cache, obj / PAGE_SIZE)
      ensures page != 0 <==> old(pages.Exhausted(cache)) && obj != 0
      ensures page == 0 ==> pmm.part == old(pmm.part) && pages.slabs.Keys == old(pages.slabs.Keys)
      ensures page != 0 ==>
        && Took(old(pmm.part), pmm.part, multiset{page})
        && page !in old(pages.slabs) && pages.slabs.Keys == old(pages.slabs.Keys) + {page}
    {
      page := 0;
      obj := AllocAvailable(cache);
      if obj == 0 {
        obj := AllocFromNew(cache);
        page := obj / PAGE_SIZE;
      }
    }

    method AllocAvailable(cache: nat) returns (obj: nat)
      requires pages.Valid() && cache < |pages.sizes|
      modifies pages.Frame()
      ensures pages.Valid() && SlabPages.SameOwners(old(pages.slabs), pages.slabs) &&
              pages.slabs.Keys == old(pages.slabs.Keys)
      ensures obj == 0 <==> old(pages.Exhausted(cache))
      ensures obj == 0 ==> pages.slabs == old(pages.slabs)
      ensures obj != 0 ==>
        && obj !in old(Live()) && Live() == old(Live()) + iset{obj}
        && obj / PAGE_SIZE in pages.slabs && Owner(obj) == cache
        && SlabPages.PartialFirst(old(pages.slabs), cache, obj / PAGE_SIZE)
    {
      pages.Open();
      obj := pages.AllocAvailable(cache);
      assert pages.Intact();
    }

    /** alloc_slab_page, and the first object of the new page. */
    method AllocFromNew(cache: nat) returns (obj: nat)
      requires Valid() && cache < |pages.sizes|
      modifies pmm.Frame(), pages.Frame()
      ensures Valid() && SlabPages.SameOwners(old(pages.slabs), pages.slabs)
      ensures obj == 0 <==> !FreeRunExists(old(pmm.part), 0)
      ensures obj == 0 ==> pmm.part == old(pmm.part) && pages.slabs == old(pages.slabs)
      ensures obj != 0 ==>
        && obj !in old(Live()) && Live() == old(Live()) + iset{obj}
        && obj / PAGE_SIZE in pages.slabs && Owner(obj) == cache
        && Took(old(pmm.part), pmm.part, multiset{obj / PAGE_SIZE}) && obj / PAGE_SIZE != 0
        && obj / PAGE_SIZE !in old(pages.slabs) && pages.slabs.Keys == old(pages.slabs.Keys) + {obj / PAGE_SIZE}
    {
      ghost var keys0 := pages.slabs.Keys;
      var page := TakePage();
      if page == 0 {
        obj := 0;
      } else {
        OwnedPagesStay(old(pmm.part), pmm.part, pmm.total, page, keys0);
        obj := StartPage(cache, page);
      }
    }

    method TakePage() returns (page: nat)
      requires pmm.Valid()
      modifies pmm.Frame()
      ensures pmm.Valid() && (page == 0 <==> !FreeRunExists(old(pmm.part), 0))
      ensures page == 0 ==> pmm.part == old(pmm.part)
      ensures page != 0 ==> Took(old(pmm.part), pmm.part, multiset{page}) && page < pmm.total
    {
      page := pmm.AllocPages(0);
      if page != 0 {
        TookOne(old(pmm.part), pmm.part, page);
        PageInRange(pmm.total, old(pmm.part), page);
      }
    }

    lemma PageInRange(total: nat, m: Partition, page: nat)
      requires Run(page, 0) <= FreePages(total, m)
      ensures page < total
    {
      assert page in Run(page, 0) by {
        assert InRun(page, 0, page);
      }
    }

    method StartPage(cache: nat, page: nat) returns (obj: nat)
      requires pages.Valid() && cache < |pages.sizes| && Fits(pages.sizes[cache])
      requires page !in pages.slabs && page < pages.links.base
      modifies pages.Frame()
      ensures pages.Valid() && SlabPages.SameOwners(old(pages.slabs), pages.slabs)
      ensures pages.slabs.Keys == old(pages.slabs.Keys) + {page} && Owner(page * PAGE_SIZE) == cache
      ensures obj / PAGE_SIZE == page && obj != 0
      ensures obj !in old(Live()) && Live() == old(Live()) + iset{obj}
    {
      pages.Open();
      pages.InitSlabPage(cache, page);
      obj := pages.AllocFromSlab(page);
      assert pages.Intact();
      PageOfBase(page);
    }

    /** kmalloc: the object is of the smallest sufficient size. */
    method Kmalloc(size: nat) returns (obj: nat, ghost page: nat)
      requires Valid() && size <= 1024
      modifies pmm.Frame(), pages.Frame()
      ensures Valid()
      ensures obj == 0 ==> pmm.part == old(pmm.part) && pages.slabs == old(pages.slabs) && !FreeRunExists(pmm.part, 0)
      ensures obj != 0 ==>
        && obj !in old(Live()) && Live() == old(Live()) + iset{obj}
        && obj / PAGE_SIZE in pages.slabs && size <= pages.sizes[KmallocIndex(size)] && Owner(obj) == KmallocIndex(size)
    {
      obj, page := AllocObject(KmallocIndex(size));
    }

    /** kfree, and slab_free when the cache is the owner: the object goes back to the cache it came from. */
    method Kfree(obj: nat)
      requires Valid() && obj in Live()
      modifies pages.Frame()
      ensures Valid() && SlabPages.SameOwners(old(pages.slabs), pages.slabs) &&
              pages.slabs.Keys == old(pages.slabs.Keys)
      ensures Live() == old(Live()) - iset{obj}
    {
      FreeToOwner(obj);
    }

    method FreeToOwner(obj: nat)
      requires pages.Valid() && obj in Live()
      modifies pages.Frame()
      ensures pages.Valid() && SlabPages.SameOwners(old(pages.slabs), pages.slabs) &&
              pages.slabs.Keys == old(pages.slabs.Keys)
      ensures Live() == old(Live()) - iset{obj}
    {
      pages.Open();
      pages.FreeObject(Owner(obj), obj);
      assert pages.Intact();
    }

    /** Pages of a list. */
    ghost function PagesOn(k: nat): set<nat>
      reads pages`slabs
    {
      set p | p in pages.slabs && SlabPages.ListOf(pages.slabs[p]) == k
    }

    /** One round of slab_list_destroy. */
    method ReturnFirst(k: nat) returns (ghost page: nat)
      requires Valid() && k < |pages.links.lists| && pages.links.lists[k] != []
      modifies pmm.Frame(), pages.Frame()
      ensures Valid() && page in old(PagesOn(k)) && pages.slabs == old(pages.slabs) - {page}
      ensures Took(pmm.part, old(pmm.part), multiset{page})
      ensures pages.links.lists == old(pages.links.lists)[k := old(pages.links.lists)[k][1..]]
    {
      ghost var keys0 := pages.slabs.Keys;
      var p := DropPage(k);
      page := p;
      FreePage(p);
      OwnedPagesLess(old(pmm.part), pmm.part, pmm.total, p, keys0);
      assert pages.slabs.Keys == keys0 - {p};
    }

    method DropPage(k: nat) returns (page: nat)
      requires pages.Valid() && k < |pages.links.lists| && pages.links.lists[k] != []
      modifies pages.Frame()
      ensures pages.Valid() && page in old(PagesOn(k)) && pages.slabs == old(pages.slabs) - {page}
      ensures pages.links.lists == old(pages.links.lists)[k := old(pages.links.lists)[k][1..]]
    {
      pages.Open();
      page := pages.DropFirst(k);
      assert pages.Intact();
    }

    method FreePage(page: nat)
      requires pmm.Valid() && page != 0 && IsLive(pmm.part, page, 0)
      modifies pmm.Frame()
      ensures pmm.Valid() && Took(pmm.part, old(pmm.part), multiset{page})
    {
      ghost var order: nat := 0;
      assert page in BuddyPartition.Live(pmm.part) && BuddyPartition.Live(pmm.part)[page] == order;
      pmm.FreeBlock(page, 0);
      ReturnedOne(old(pmm.part), pmm.part, page);
    }

    /** Since `part0` and `slabs0`, exactly the pages `gone` were given back; nothing else changed. */
    ghost predicate Returned(part0: Partition, slabs0: map<nat, SlabPages.Slab>, gone: set<nat>)
      reads pmm`part, pages`slabs
    {
      && Took(pmm.part, part0, multiset(gone))
      && pages.slabs == slabs0 - gone && gone <= slabs0.Keys
    }

    lemma ReturnedMore(part0: Partition, part1: Partition, slabs0: map<nat, SlabPages.Slab>,
                       slabs1: map<nat, SlabPages.Slab>, gone: set<nat>, page: nat)
      requires Took(part1, part0, multiset(gone)) && slabs1 == slabs0 - gone && gone <= slabs0.Keys
      requires Took(pmm.part, part1, multiset{page}) && pages.slabs == slabs1 - {page} && page in slabs1
      ensures Returned(part0, slabs0, gone + {page})
    {
      TookMore(pmm.part, part1, part0, multiset{page}, multiset(gone));
      assert multiset{page} + multiset(gone) == multiset(gone + {page});
      assert slabs0 - gone - {page} == slabs0 - (gone + {page});
    }

    method ReturnNext(k: nat, ghost part0: Partition, ghost slabs0: map<nat, SlabPages.Slab>, ghost gone: set<nat>)
      returns (ghost gone': set<nat>)
      requires Valid() && k < |pages.links.lists| && pages.links.lists[k] != [] && Returned(part0, slabs0, gone)
      modifies pmm.Frame(), pages.Frame()
      ensures Valid() && Returned(part0, slabs0, gone') && gone <= gone'
      ensures pages.links.lists == old(pages.links.lists)[k := old(pages.links.lists)[k][1..]]
      ensures forall p :: p in gone' - gone ==> p in slabs0 && SlabPages.ListOf(slabs0[p]) == k
    {
      ghost var part1, slabs1 := pmm.part, pages.slabs;
      ghost var page := ReturnFirst(k);
      ReturnedMore(part0, part1, slabs0, slabs1, gone, page);
      gone' := gone + {page};
    }

    /** slab_list_destroy. */
    method DestroyList(k: nat, ghost part0: Partition, ghost slabs0: map<nat, SlabPages.Slab>, ghost gone0: set<nat>)
      returns (ghost gone: set<nat>)
      requires Valid() && k < |pages.links.lists| && Returned(part0, slabs0, gone0)
      modifies pmm.Frame(), pages.Frame()
      ensures Valid() && Returned(part0, slabs0, gone)
      ensures pages.links.lists == old(pages.links.lists)[k := []]
      ensures gone0 <= gone && forall p :: p in gone - gone0 ==> SlabPages.ListOf(slabs0[p]) == k
    {
      gone := gone0;
      var more := ListHasPage(k);
      while more
        invariant Valid() && k < |pages.links.lists| && Returned(part0, slabs0, gone)
        invariant more <==> pages.links.lists[k] != []
        invariant pages.links.lists == old(pages.links.lists)[k := pages.links.lists[k]]
        invariant gone0 <= gone && forall p :: p in gone - gone0 ==> SlabPages.ListOf(slabs0[p]) == k
        decreases |pages.links.lists[k]|
      {
        gone := ReturnNext(k, part0, slabs0, gone);
        more := ListHasPage(k);
      }
    }

    method ListHasPage(k: nat) returns (more: bool)
      requires Valid() && k < |pages.links.lists|
      ensures more <==> pages.links.lists[k] != []
    {
      pages.Open();
      var first := pages.links.First(k);
      more := first != pages.links.base + k;
    }

    /** One of the three lists of a cache. */
    method DestroyOneList(cache: nat, kind: nat, ghost part0: Partition, ghost slabs0: map<nat, SlabPages.Slab>,
                          ghost gone0: set<nat>)
      returns (ghost gone: set<nat>)
      requires Valid() && cache < |pages.sizes| && kind <= 2 && Returned(part0, slabs0, gone0)
      requires |pages.links.lists| == 3 * |pages.sizes| && forall p :: p in gone0 ==> slabs0[p].cache == cache
      modifies pmm.Frame(), pages.Frame()
      ensures Valid() && Returned(part0, slabs0, gone) && forall p :: p in gone ==> slabs0[p].cache == cache
      ensures pages.links.lists == old(pages.links.lists)[3 * cache + kind := []]
    {
      gone := DestroyList(3 * cache + kind, part0, slabs0, gone0);
      forall p | p in gone - gone0
        ensures slabs0[p].cache == cache
      {
        ListOfCache(slabs0[p], cache);
      }
    }

    /**
     The lists' part of slab_destroy_kmem_cache: every page of the cache is given back once, no
     other page is, and the pages of the other caches, with their objects, stay as they are.
     */
    method DestroyPages(cache: nat) returns (ghost gone: set<nat>)
      requires Valid() && cache < |pages.sizes|
      modifies pmm.Frame(), pages.Frame()
      ensures Valid() && Took(pmm.part, old(pmm.part), multiset(gone))
      ensures pages.slabs == old(pages.slabs) - gone
      ensures forall p :: p in gone <==> p in old(pages.slabs) && old(pages.slabs)[p].cache == cache
      ensures forall o: nat :: o in Live() <==> o in old(Live()) && SlabPages.Owner(old(pages.slabs), o) != cache
    {
      ghost var part0, slabs0 := pmm.part, pages.slabs;
      gone := {};
      TookNothing(part0);
      assert multiset(gone) == multiset{} && slabs0 - gone == slabs0;
      pages.Open();
      gone := DestroyOneList(cache, SlabPages.FREE, part0, slabs0, gone);
      gone := DestroyOneList(cache, SlabPages.PARTIAL, part0, slabs0, gone);
      gone := DestroyOneList(cache, SlabPages.FULL, part0, slabs0, gone);
      NoPagesLeft(cache, slabs0, gone);
    }

    lemma ListOfCache(slab: SlabPages.Slab, cache: nat)
      ensures slab.cache == cache <==> 3 * cache <= SlabPages.ListOf(slab) <= 3 * cache + 2
    {
    }

    lemma PageOfBase(page: nat)
      ensures page * PAGE_SIZE / PAGE_SIZE == page
    {
    }

    lemma NoPagesLeft(cache: nat, slabs0: map<nat, SlabPages.Slab>, gone: set<nat>)
      requires pages.Valid() && cache < |pages.sizes| && pages.slabs == slabs0 - gone && gone <= slabs0.Keys
      requires 3 * cache + 2 < |pages.links.lists| && pages.links.lists[3 * cache] == []
      requires pages.links.lists[3 * cache + 1] == [] && pages.links.lists[3 * cache + 2] == []
      requires forall p :: p in gone ==> slabs0[p].cache == cache
      ensures forall p :: p in gone <==> p in slabs0 && slabs0[p].cache == cache
      ensures forall o: nat :: o in Live() <==>
        o in SlabPages.Live(pages.sizes, slabs0) && SlabPages.Owner(slabs0, o) != cache
    {
      NoneOfCache(cache);
      OthersLeft(cache, slabs0, gone, pages.slabs);
    }

    /** With its three lists empty, a cache has no page. */
    lemma NoneOfCache(cache: nat)
      requires pages.Valid() && cache < |pages.sizes| && 3 * cache + 2 < |pages.links.lists|
      requires pages.links.lists[3 * cache] == []
      requires pages.links.lists[3 * cache + 1] == [] && pages.links.lists[3 * cache + 2] == []
      ensures forall p :: p in pages.slabs ==> pages.slabs[p].cache != cache
    {
      pages.Open();
      forall p | p in pages.slabs
        ensures pages.slabs[p].cache != cache
      {
        var k := SlabPages.ListOf(pages.slabs[p]);
        assert p in pages.links.lists[k];
        ListOfCache(pages.slabs[p], cache);
      }
    }

    lemma OthersLeft(cache: nat, slabs0: map<nat, SlabPages.Slab>, gone: set<nat>, left: map<nat, SlabPages.Slab>)
      requires left == slabs0 - gone && gone <= slabs0.Keys
      requires forall p :: p in gone ==> slabs0[p].cache == cache
      requires forall p :: p in left ==> left[p].cache != cache
      ensures forall p :: p in gone <==> p in slabs0 && slabs0[p].cache == cache
      ensures forall o: nat :: o in SlabPages.Live(pages.sizes, left) <==>
        o in SlabPages.Live(pages.sizes, slabs0) && SlabPages.Owner(slabs0, o) != cache
    {
      forall p | p in slabs0 && slabs0[p].cache == cache
        ensures p in gone
      {
        assert p !in gone ==> p in left;
      }
    }
  }
}
