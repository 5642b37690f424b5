/** The page allocator: a free list threaded through the free pages themselves. */
module Allocator {
  import opened Options
  import PageTable
  import PageTree

  const PGSIZE: nat := PageTree.PGSIZE

  class KernelAllocator {
    var head: Option<nat>
    /** The link that is stored in the first word of each free page. */
    var next: map<nat, Option<nat>>
    /** The addresses that `deallocate_page` accepts. */
    const low: nat
    const high: nat
    /** The free pages; the last one is handed out next. */
    ghost var free: seq<nat>

    ghost predicate Acceptable(page: nat) {
      page % PGSIZE == 0 && low <= page < high
    }

    ghost predicate Linked(k: nat)
      requires k < |free|
      reads this
    {
      free[k] in next && next[free[k]] == if k == 0 then None else Some(free[k - 1])
    }

    ghost predicate Valid()
      reads this
    {
      && head == (if free == [] then None else Some(free[|free| - 1]))
      && (forall k :: 0 <= k < |free| ==> Linked(k))
      && (forall j, k :: 0 <= j < k < |free| ==> free[j] != free[k])
      && (forall k :: 0 <= k < |free| ==> Acceptable(free[k]))
    }

    constructor (low: nat, high: nat)
      ensures Valid() && free == [] && this.low == low && this.high == high
    {
      this.low, this.high := low, high;
      head, next, free := None, map[], [];
    }

    /** Takes a page off the list; fails exactly when none is free. */
    method AllocatePage() returns (r: Option<nat>)
      requires Valid()
      modifies this
      ensures Valid()
      ensures r.None? <==> old(free) == []
      ensures r.None? ==> free == []
      ensures r.Some? ==> old(free) == free + [r.value] && r.value !in free && Acceptable(r.value)
    {
      if head.None? {
        return None;
      }
      var page := head.value;
      assert Linked(|free| - 1);
      head := next[page];
      free := free[..|free| - 1];
      assert forall k :: 0 <= k < |free| ==> old(Linked(k)) ==> Linked(k);
      return Some(page);
    }

    /** Puts a page back; its assertions are the caller's duty. */
    method DeallocatePage(page: nat)
      requires Valid() && Acceptable(page) && page !in free
      modifies this
      ensures Valid() && free == old(free) + [page]
    {
      next := next[page := head];
      head := Some(page);
      free := free + [page];
      forall k | 0 <= k < |free| ensures Linked(k) {
        assert k < |old(free)| ==> old(Linked(k));
      }
    }

    /** Splits a region into pages: exactly the whole pages inside it become free, each once. */
    method RegisterPages(start: nat, end: nat)
      requires Valid() && free == [] && low <= start && PGSIZE <= end <= high
      modifies this
      ensures Valid()
      ensures forall p :: p in free <==> p % PGSIZE == 0 && start <= p && p + PGSIZE <= end
    {
      var first := PageTable.RoundUp(start);
      var page := first;
      while page <= end - PGSIZE
        invariant Valid() && page % PGSIZE == 0 && page >= first
        invariant forall p :: p in free <==> p % PGSIZE == 0 && first <= p < page && p + PGSIZE <= end
        decreases end - page
      {
        DeallocatePage(page);
        page := page + PGSIZE;
      }
    }
  }
}
