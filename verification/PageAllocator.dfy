/**
 The physical page allocator: eleven free lists, one header byte per page, block
 counters. The ghost partition says which blocks there are; headers of pages
 inside a block are never cleaned up and mean nothing.
 */
module PageAllocator {
  import opened Units
  import opened Alignment
  import opened BuddyPartition
  import opened IntrusiveList

  const BUDDY_MAX_ORDER: nat := 11
  const ORDER_PAGES: seq<nat> := [1, 2, 4, 8, 16, 32, 64, 128, 256, 512, 1024]

  /** The header of one page: the two flag bits in use and the order of the block it heads. */
  datatype Page = Page(used: bool, locked: bool, order: nat) {
    predicate Clear() {
      !used && !locked
    }
  }

  const NULL_PAGE: int := -1

  lemma OrderPagesArePowers(order: nat)
    requires order < BUDDY_MAX_ORDER
    ensures ORDER_PAGES[order] == Pow2(order)
  {
    if order > 0 {
      OrderPagesArePowers(order - 1);
    }
  }

  /** The page number of the buddy, or `NULL_PAGE` if there is none inside the memory. */
  function GetBuddy(total: nat, page: nat, order: nat): int {
    if order + 1 >= BUDDY_MAX_ORDER then NULL_PAGE
    else
      var buddy := if page % ORDER_PAGES[order + 1] == 0 then page + ORDER_PAGES[order] else page - ORDER_PAGES[order];
      if buddy < 0 || buddy >= total then NULL_PAGE else buddy
  }

  lemma GetBuddyIsBuddy(total: nat, page: nat, order: nat)
    requires order < TOP_ORDER && Aligned(page, order)
    ensures GetBuddy(total, page, order) == if Buddy(page, order) < total then Buddy(page, order) else NULL_PAGE
  {
    OrderPagesArePowers(order);
    OrderPagesArePowers(order + 1);
    AlignedIsMultiple(page, order + 1);
  }

  // ----- how headers, lists and counters represent a partition

  /** Headers of block heads tell the truth; `x` is a block in transit (or none if negative). */
  ghost predicate HeadersMatch(pages: seq<Page>, m: Partition, x: int) {
    && (forall i :: 0 <= i < |pages| ==> pages[i].order <= TOP_ORDER)
    && (forall h :: h in m ==> h < |pages|)
    && (forall h :: h in m && h != x ==> pages[h].order == m[h].order && (pages[h].Clear() <==> m[h].free))
  }

  /** List `k` holds exactly the heads of the free blocks of order `k`, except a block in transit. */
  ghost predicate ListsMatch(lists: seq<seq<nat>>, m: Partition, x: int) {
    && |lists| == BUDDY_MAX_ORDER
    && forall k: nat, h: nat :: k < |lists| ==> (h in lists[k] <==> h != x && IsFree(m, h, k))
  }

  ghost predicate CountsMatch(counts: seq<nat>, lists: seq<seq<nat>>) {
    |counts| == |lists| && forall k :: 0 <= k < |lists| ==> counts[k] == |lists[k]|
  }

  ghost predicate Represents(pages: seq<Page>, counts: seq<nat>, lists: seq<seq<nat>>, m: Partition, x: int) {
    HeadersMatch(pages, m, x) && ListsMatch(lists, m, x) && CountsMatch(counts, lists)
  }

  /** The header test of the merge loop holds exactly when the buddy is a whole free block of the same order. */
  lemma HeaderTest(total: nat, pages: seq<Page>, m: Partition, h: nat)
    requires Tiling(total, m) && |pages| == total && h in m && m[h].free && HeadersMatch(pages, m, h)
    ensures var b := GetBuddy(total, h, m[h].order);
            (b != NULL_PAGE && pages[b].Clear() && pages[b].order == m[h].order) <==> Mergeable(m, h)
    ensures Mergeable(m, h) ==> GetBuddy(total, h, m[h].order) == Buddy(h, m[h].order)
  {
    var k := m[h].order;
    if k < TOP_ORDER {
      GetBuddyIsBuddy(total, h, k);
      BuddyProperties(h, k);
      if Buddy(h, k) < total {
        BuddyIsHead(total, m, h);
      }
    }
  }

  lemma InsertRepresents(pages: seq<Page>, counts: seq<nat>, lists: seq<seq<nat>>, m: Partition, x: nat, k: nat)
    requires Represents(pages, counts, lists, m, x) && IsFree(m, x, k) && k <= TOP_ORDER
    ensures Represents(pages[x := Page(false, false, k)], counts[k := counts[k] + 1], lists[k := [x] + lists[k]], m,
                       NULL_PAGE)
  {
  }

  /** Unlinking the buddy of the block in transit leaves the merged block in transit. */
  lemma MergeRepresents(pages: seq<Page>, counts: seq<nat>, lists: seq<seq<nat>>, m: Partition, h: nat, i: nat)
    requires Represents(pages, counts, lists, m, h) && Mergeable(m, h)
    requires i < |lists[m[h].order]| && lists[m[h].order][i] == Buddy(h, m[h].order)
    requires Distinct(lists[m[h].order])
    ensures var k := m[h].order;
            var b := Buddy(h, k);
            && counts[k] > 0
            && Represents(pages, counts[k := counts[k] - 1], lists[k := RemoveAt(lists[k], i)], Merge(m, h, b),
                          Min(h, b))
  {
    var k := m[h].order;
    BuddyProperties(h, k);
    RemovedMembers(lists[k], i);
    var m' := Merge(m, h, Buddy(h, k));
    var lists' := lists[k := RemoveAt(lists[k], i)];
    forall j: nat, g: nat | j < |lists'|
      ensures g in lists'[j] <==> g != Min(h, Buddy(h, k)) && IsFree(m', g, j)
    {
      assert g in lists[j] <==> g != h && IsFree(m, g, j);
    }
  }

  /** Taking the first block of an area for use puts it in transit. */
  lemma TakeRepresents(pages: seq<Page>, counts: seq<nat>, lists: seq<seq<nat>>, m: Partition, k: nat)
    requires Represents(pages, counts, lists, m, NULL_PAGE) && k < |lists| && lists[k] != [] && Distinct(lists[k])
    ensures var h := lists[k][0];
            && IsFree(m, h, k) && counts[k] > 0
            && Represents(pages, counts[k := counts[k] - 1], lists[k := RemoveAt(lists[k], 0)], Mark(m, h, false), h)
  {
    var h := lists[k][0];
    assert h in lists[k];
    RemovedMembers(lists[k], 0);
  }

  /** Splitting the block in transit and listing its upper half. */
  lemma SplitRepresents(pages: seq<Page>, counts: seq<nat>, lists: seq<seq<nat>>, m: Partition, h: nat, k: nat)
    requires Represents(pages, counts, lists, m, h) && h in m && m[h] == Block(k + 1, false) && k < TOP_ORDER
    requires h + Pow2(k) < |pages| && h + Pow2(k) !in m
    ensures var u := h + Pow2(k);
            Represents(pages[u := Page(false, false, k)], counts[k := counts[k] + 1], lists[k := [u] + lists[k]],
                       Split(m, h), h)
  {
    var u := h + Pow2(k);
    var m' := Split(m, h);
    var lists' := lists[k := [u] + lists[k]];
    forall j: nat, g: nat | j < |lists'|
      ensures g in lists'[j] <==> g != h && IsFree(m', g, j)
    {
      assert g in lists[j] <==> g != h && IsFree(m, g, j);
    }
  }

  lemma FinishRepresents(pages: seq<Page>, counts: seq<nat>, lists: seq<seq<nat>>, m: Partition, h: nat, order: nat)
    requires Represents(pages, counts, lists, m, h) && h in m && m[h] == Block(order, false) && order <= TOP_ORDER
    ensures Represents(pages[h := Page(true, false, order)], counts, lists, m, NULL_PAGE)
  {
  }

  lemma FreeHeadIsFree(m: Partition, h: nat)
    requires h in m && m[h].free
    ensures FreeAt(m, h)
  {
    assert Covers(m, h, h);
  }

  lemma RunSize(a: nat, order: nat)
    ensures |Run(a, order)| == Pow2(order)
  {
    IntervalSize(Run(a, order), a, a + Pow2(order));
  }

  lemma {:induction false} IntervalSize(s: set<nat>, lo: nat, hi: nat)
    requires lo <= hi && forall p: nat :: p in s <==> lo <= p < hi
    ensures |s| == hi - lo
    decreases hi - lo
  {
    if lo < hi {
      IntervalSize(s - {lo}, lo + 1, hi);
    } else {
      assert s == {};
    }
  }

  lemma AllocCount(total: nat, m: Partition, m': Partition, page: nat, order: nat)
    requires order <= TOP_ORDER && Run(page, order) <= FreePages(total, m)
    requires FreePages(total, m') == FreePages(total, m) - Run(page, order)
    ensures |FreePages(total, m')| == |FreePages(total, m)| - ORDER_PAGES[order]
  {
    OrderPagesArePowers(order);
    RunSize(page, order);
  }

  lemma ReleaseCount(total: nat, m: Partition, m': Partition, page: nat, order: nat)
    requires order <= TOP_ORDER && Run(page, order) !! FreePages(total, m)
    requires FreePages(total, m') == FreePages(total, m) + Run(page, order)
    ensures |FreePages(total, m')| == |FreePages(total, m)| + ORDER_PAGES[order]
  {
    OrderPagesArePowers(order);
    RunSize(page, order);
  }

  /** Before anything is freed, every page is a live block of its own. */
  ghost function AllLive(total: nat): Partition {
    map p: nat {:trigger Aligned(p, 0)} | p < total :: Block(0, false)
  }

  class Pmm {
    const total: nat
    const pages: array<Page>
    const numBlocks: array<nat>
    const links: Links
    var numPages: nat
    ghost var part: Partition

    ghost function Frame(): set<object>
    {
      {this, pages, numBlocks} + links.Frame()
    }

    ghost predicate Shape()
    {
      && pages.Length == total && numBlocks.Length == BUDDY_MAX_ORDER
      && links.base == total && links.count == BUDDY_MAX_ORDER
      && numBlocks as object != links.next && numBlocks as object != links.prev
      && pages as object != links.next && pages as object != links.prev
    }

    /** Everything but block `x` is where it should be. */
    ghost predicate InTransit(x: int)
      reads this`part, pages, numBlocks, links, links.next, links.prev
    {
      && Shape() && links.Valid() && Tiling(total, part)
      && Represents(pages[..], numBlocks[..], links.lists, part, x)
    }

    ghost predicate Intact()
      reads Frame()
    {
      && InTransit(NULL_PAGE)
      && Coalesced(part)
      && numPages == |FreePages(total, part)|
      && (total > 0 ==> 0 in Live(part))
    }

    /** The invariant. Clients need not look inside it: only mentioning a key brings its definition up. */
    ghost predicate Valid()
      reads Frame()
    {
      forall k {:trigger Key(k)} :: Key(k) ==> Intact()
    }

    /** Keeps `Valid` closed: what it says is in view only where a key is stated. */
    ghost predicate Key(k: int) {
      true
    }

    lemma Open()
      requires Valid()
      ensures Intact()
    {
      assert Key(0);
    }

    /** Headers of pages that are not free are as they were in `pages0`. */
    ghost predicate HeadersKept(pages0: seq<Page>)
      reads this`part, pages
    {
      |pages0| == pages.Length && forall p: nat :: p < pages.Length && !FreeAt(part, p) ==> pages[p] == pages0[p]
    }

    /** Reserves a page for good: it stays in use and its header says so. */
    method Lock(page: nat)
      requires Valid() && page in Live(part) && page < pages.Length
      modifies pages
      ensures Valid()
      ensures pages[..] == old(pages[..])[page := old(pages[page]).(locked := true)]
    {
      Open();
      pages[page] := pages[page].(locked := true);
    }

    /** Every page starts in use, as a block of its own, and every list empty. */
    constructor (total: nat)
      ensures Valid() && fresh(Frame())
      ensures this.total == total && numPages == 0 && Live(part) == Live(AllLive(total))
      ensures forall i :: 0 <= i < pages.Length ==> pages[i] == Page(true, false, 0)
    {
      this.total := total;
      pages := new Page[total](_ => Page(true, false, 0));
      numBlocks := new nat[BUDDY_MAX_ORDER](_ => 0);
      links := new Links(total, BUDDY_MAX_ORDER);
      numPages := 0;
      part := AllLive(total);
      new;
      forall p: nat | p < total
        ensures Covered(part, p)
      {
        assert Covers(part, p, p);
      }
      assert FreePages(total, part) == {};
    }

    /** insert_block_into_area: pushes the block in transit on the list of its order. */
    method InsertBlock(page: nat, order: nat)
      requires InTransit(page) && IsFree(part, page, order)
      modifies links, links.next, links.prev, pages, numBlocks
      ensures InTransit(NULL_PAGE)
      ensures pages[..] == old(pages[..])[page := Page(false, false, order)]
    {
      InsertRepresents(pages[..], numBlocks[..], links.lists, part, page, order);
      links.InsertHead(order, page);
      numBlocks[order] := numBlocks[order] + 1;
      pages[page] := Page(false, false, order);
    }

    /** split_block_from_area, for the free buddy `b` of the block in transit. */
    method SplitBlock(b: nat, order: nat, ghost h: nat)
      requires InTransit(h) && Mergeable(part, h) && order == part[h].order && b == Buddy(h, order)
      modifies this`part, links, links.next, links.prev, numBlocks
      ensures part == Merge(old(part), h, b)
      ensures InTransit(Min(h, b))
    {
      BuddyProperties(h, order);
      ghost var i :| 0 <= i < |links.lists[order]| && links.lists[order][i] == b;
      MergeRepresents(pages[..], numBlocks[..], links.lists, part, h, i);
      MergeTiling(total, part, h);
      links.Remove(b, order, i);
      numBlocks[order] := numBlocks[order] - 1;
      part := Merge(part, h, b);
    }

    /** alloc_block_from_area, on an area that is not empty. */
    method TakeBlock(order: nat) returns (page: nat)
      requires InTransit(NULL_PAGE) && order < BUDDY_MAX_ORDER && links.lists[order] != []
      modifies this`part, links, links.next, links.prev, numBlocks
      ensures page == old(links.lists[order][0]) && IsFree(old(part), page, order)
      ensures part == Mark(old(part), page, false)
      ensures InTransit(page)
    {
      TakeRepresents(pages[..], numBlocks[..], links.lists, part, order);
      MarkTiling(total, part, links.lists[order][0], false);
      page := links.First(order);
      links.Remove(page, order, 0);
      numBlocks[order] := numBlocks[order] - 1;
      part := Mark(part, page, false);
    }

    /** alloc_block: takes a block of order `freeOrder` and halves it down to `order`. */
    method AllocBlock(freeOrder: nat, order: nat) returns (page: nat)
      requires InTransit(NULL_PAGE) && order <= freeOrder < BUDDY_MAX_ORDER && links.lists[freeOrder] != []
      modifies this`part, links, links.next, links.prev, pages, numBlocks
      ensures page == old(links.lists[freeOrder][0]) && IsFree(old(part), page, freeOrder)
      ensures part == Allocate(old(part), page, order)
      ensures InTransit(NULL_PAGE)
    {
      page := TakeBlock(freeOrder);
      var o := freeOrder;
      while o > order
        invariant order <= o <= freeOrder
        invariant page in part && part[page] == Block(o, false)
        invariant SplitTo(part, page, order) == Allocate(old(part), page, order)
        invariant InTransit(page)
      {
        o := o - 1;
        HalveBlock(page, o);
      }
      FinishRepresents(pages[..], numBlocks[..], links.lists, part, page, order);
      pages[page] := Page(true, false, order);
    }

    /** One round of the splitting loop. */
    method HalveBlock(page: nat, order: nat)
      requires InTransit(page) && page in part && part[page] == Block(order + 1, false)
      modifies this`part, links, links.next, links.prev, pages, numBlocks
      ensures part == Split(old(part), page)
      ensures InTransit(page)
    {
      OrderPagesArePowers(order);
      UpperHalfIsNoHead(total, part, page);
      SplitRepresents(pages[..], numBlocks[..], links.lists, part, page, order);
      SplitTiling(total, part, page);
      var upper := page + ORDER_PAGES[order];
      links.InsertHead(order, upper);
      numBlocks[order] := numBlocks[order] + 1;
      pages[upper] := Page(false, false, order);
      part := Split(part, page);
    }

    /** pmm_alloc_pages. */
    method AllocPages(order: nat) returns (page: nat)
      requires Valid()
      modifies Frame()
      ensures Valid()
      ensures page == 0 <==> order > TOP_ORDER || !FreeRunExists(old(part), order)
      ensures page == 0 ==> part == old(part)
      ensures page != 0 ==> page in old(part) && old(part)[page].free && order <= old(part)[page].order
      ensures page != 0 ==> part == Allocate(old(part), page, order)
      ensures page != 0 ==> forall h :: h in old(part) && old(part)[h].free && order <= old(part)[h].order ==>
                                          old(part)[page].order <= old(part)[h].order
      ensures page != 0 ==> page !in Live(old(part)) && Live(part) == Live(old(part))[page := order]
      ensures page != 0 ==> Run(page, order) <= FreePages(total, old(part))
                            && FreePages(total, part) == FreePages(total, old(part)) - Run(page, order)
    {
      Open();
      var check := order;
      while check < BUDDY_MAX_ORDER
        invariant part == old(part) && Intact()
        invariant forall k :: order <= k < check && k < BUDDY_MAX_ORDER ==> links.lists[k] == []
      {
        if numBlocks[check] > 0 {
          AllocMeans(order, check);
          page := AllocFrom(check, order);
          return;
        }
        check := check + 1;
      }
      NoBlock(order);
      page := 0;
    }

    /** Allocation from the first nonempty area, with the page counter. */
    method AllocFrom(check: nat, order: nat) returns (page: nat)
      requires Intact() && order <= check < BUDDY_MAX_ORDER && links.lists[check] != []
      modifies Frame()
      ensures Intact()
      ensures page == old(links.lists[check][0]) && IsFree(old(part), page, check)
      ensures part == Allocate(old(part), page, order)
      ensures page !in Live(old(part)) && Live(part) == Live(old(part))[page := order]
      ensures Run(page, order) <= FreePages(total, old(part))
      ensures FreePages(total, part) == FreePages(total, old(part)) - Run(page, order)
    {
      page := AllocBlock(check, order);
      AllocateProperties(total, old(part), page, order);
      AllocCount(total, old(part), part, page, order);
      numPages := numPages - ORDER_PAGES[order];
    }

    lemma NoBlock(order: nat)
      requires Intact()
      requires forall k :: order <= k < BUDDY_MAX_ORDER ==> links.lists[k] == []
      ensures order <= TOP_ORDER ==> !FreeRunExists(part, order)
    {
      if order <= TOP_ORDER {
        Completeness(total, part, order);
        if FreeBlockExists(part, order) {
          var h: nat :| h in part && part[h].free && part[h].order >= order;
          assert IsFree(part, h, part[h].order);
        }
      }
    }

    /** The first nonempty area holds a smallest block that is large enough; page 0 is never its head. */
    lemma AllocMeans(order: nat, check: nat)
      requires Intact() && order <= check < BUDDY_MAX_ORDER && links.lists[check] != []
      requires forall k :: order <= k < check ==> links.lists[k] == []
      ensures FreeRunExists(part, order)
      ensures links.lists[check][0] != 0
      ensures forall h :: h in part && part[h].free && order <= part[h].order ==> check <= part[h].order
    {
      var h := links.lists[check][0];
      assert h in links.lists[check];
      assert FreeBlockExists(part, order);
      Completeness(total, part, order);
      forall g | g in part && part[g].free && order <= part[g].order
        ensures check <= part[g].order
      {
        assert g in links.lists[part[g].order];
      }
    }

    /** pmm_free_pages. */
    method FreeBlock(page: nat, order: nat)
      requires Valid()
      requires page != 0 ==> page in Live(part) && Live(part)[page] == order
      modifies Frame()
      ensures Valid()
      ensures page == 0 ==> part == old(part)
      ensures page != 0 ==> part == Release(old(part), page)
      ensures page != 0 ==> Live(part) == Live(old(part)) - {page}
      ensures HeadersKept(old(pages[..]))
      ensures page != 0 ==> Run(page, order) !! FreePages(total, old(part))
                            && FreePages(total, part) == FreePages(total, old(part)) + Run(page, order)
    {
      Open();
      if page == 0 {
        return;
      }
      ReleaseProperties(total, part, page);
      FreeLive(page, order);
    }

    method FreeLive(page: nat, order: nat)
      requires Intact() && page != 0 && page in Live(part) && Live(part)[page] == order
      modifies Frame()
      ensures Intact()
      ensures part == Release(old(part), page)
      ensures HeadersKept(old(pages[..]))
    {
      ghost var m := part;
      ReleaseProperties(total, m, page);
      ReleaseCount(total, m, Release(m, page), page, order);
      FreedIsFree(Release(m, page), page, order);
      StartAndMerge(page, order);
    }

    method StartAndMerge(page: nat, order: nat)
      requires InTransit(NULL_PAGE) && page in Live(part) && Live(part)[page] == order
      requires FreeAt(Release(part, page), page)
      modifies Frame()
      ensures InTransit(NULL_PAGE)
      ensures part == Release(old(part), page)
      ensures numPages == old(numPages) + ORDER_PAGES[order]
      ensures HeadersKept(old(pages[..]))
    {
      StartFree(page, order);
      MergeUp(page, order);
    }

    lemma FreedIsFree(m: Partition, page: nat, order: nat)
      requires page < total && Run(page, order) <= FreePages(total, m)
      ensures FreeAt(m, page)
    {
      assert page in Run(page, order) by {
        assert InRun(page, order, page);
      }
    }

    /** Clears the header of a live block; the block is then in transit. */
    method StartFree(page: nat, order: nat)
      requires InTransit(NULL_PAGE) && page in Live(part) && Live(part)[page] == order
      modifies this`part, this`numPages, pages
      ensures InTransit(page) && IsFree(part, page, order)
      ensures part == Mark(old(part), page, true)
      ensures numPages == old(numPages) + ORDER_PAGES[order]
      ensures pages[..] == old(pages[..])[page := old(pages[page]).(used := false, locked := false)]
    {
      MarkTiling(total, part, page, true);
      pages[page] := pages[page].(used := false, locked := false);
      numPages := numPages + ORDER_PAGES[order];
      part := Mark(part, page, true);
    }

    /** The merge loop of pmm_free_pages. The insertion that follows it there is never reached. */
    method MergeUp(page: nat, order: nat)
      requires InTransit(page) && IsFree(part, page, order)
      modifies this`part, links, links.next, links.prev, pages, numBlocks
      ensures InTransit(NULL_PAGE)
      ensures part == Coalesce(old(part), page)
      ensures HeadersKept(old(pages[..]))
    {
      var block, o := page, order;
      while o < BUDDY_MAX_ORDER
        invariant o < BUDDY_MAX_ORDER
        invariant InTransit(block) && IsFree(part, block, o)
        invariant Coalesce(part, block) == Coalesce(old(part), page)
        invariant pages[..] == old(pages[..])
      {
        var buddy := GetBuddy(total, block, o);
        HeaderTest(total, pages[..], part, block);
        if buddy != NULL_PAGE && pages[buddy].Clear() && pages[buddy].order == o {
          SplitBlock(buddy, o, block);
          block := Min(block, buddy);
        } else {
          FreeHeadIsFree(part, block);
          InsertBlock(block, o);
          return;
        }
        o := o + 1;
      }
      assert false;
    }
  }
}
