/** The free list of Kernighan and Ritchie's allocator (The C Programming Language, 2nd edition, section 8.7).
    Addresses and sizes are in units of a header. */
module MallocHeap {

  /** The two words of each header. */
  datatype Heap = Heap(ptr: map<nat, nat>, size: map<nat, nat>)

  /** What the heap is made of: the free list from `base` upwards, the blocks handed out, and for every unit obtained
      from the system the block it is in. */
  datatype Map = Map(list: seq<nat>, live: set<nat>, own: map<nat, nat>)

  ghost predicate IsBlock(g: Map, a: nat) {
    a in g.live || (a in g.list && a != g.list[0])
  }

  ghost function NextOf(list: seq<nat>, i: nat): nat
    requires i < |list|
  {
    if i + 1 < |list| then list[i + 1] else list[0]
  }

  ghost predicate FreeOk(h: Heap, g: Map, i: nat)
    requires i < |g.list|
  {
    && g.list[i] in h.ptr && g.list[i] in h.size && h.ptr[g.list[i]] == NextOf(g.list, i)
    && (h.size[g.list[i]] == 0 <==> i == 0) && g.list[i] !in g.live
  }

  ghost predicate LiveOk(h: Heap, g: Map, a: nat) {
    a in h.size && h.size[a] > 0 && g.list != [] && a > g.list[0]
  }

  /** All units of a block belong to it. */
  ghost predicate BlockOk(h: Heap, g: Map, a: nat) {
    a in h.size && forall u :: a <= u < a + h.size[a] ==> u in g.own && g.own[u] == a
  }

  ghost predicate UnitOk(h: Heap, g: Map, u: nat)
    requires u in g.own
  {
    IsBlock(g, g.own[u]) && g.own[u] in h.size && g.own[u] <= u < g.own[u] + h.size[g.own[u]]
  }

  /** The list is circular, in address order, and no two of its blocks touch; every unit is in exactly one block. */
  ghost predicate Valid(h: Heap, g: Map) {
    && g.list != []
    && (forall i :: 0 <= i < |g.list| ==> FreeOk(h, g, i))
    && (forall i, j :: 0 <= i < j < |g.list| ==> Before(h, g.list[i], g.list[j]))
    && (forall a :: a in g.live ==> LiveOk(h, g, a))
    && (forall a :: IsBlock(g, a) ==> BlockOk(h, g, a))
    && (forall u :: u in g.own ==> UnitOk(h, g, u))
  }

  /** A block ends before another one, with a gap. */
  ghost predicate Before(h: Heap, a: nat, b: nat) {
    a in h.size && a + h.size[a] < b
  }

  /** The gap of the list that an address falls into. */
  ghost predicate InGap(g: Map, a: nat, i: nat) {
    i < |g.list| && g.list[i] < a && (i + 1 < |g.list| ==> a < g.list[i + 1])
  }

  lemma {:induction false} GapExists(h: Heap, g: Map, a: nat, n: nat) returns (i: nat)
    requires Valid(h, g) && 0 < n <= |g.list| && g.list[0] < a
    ensures i < n && g.list[i] < a && (i + 1 < n ==> a < g.list[i + 1] || a == g.list[i + 1])
  {
    if n == 1 || g.list[n - 1] < a {
      i := n - 1;
    } else {
      i := GapExists(h, g, a, n - 1);
    }
  }

  /** Two blocks do not overlap. */
  lemma {:induction false} Apart(h: Heap, g: Map, a: nat, b: nat)
    requires Valid(h, g) && IsBlock(g, a) && IsBlock(g, b) && a < b
    ensures a in h.size && b in h.size && a + h.size[a] <= b
  {
    Positive(h, g, a);
    Positive(h, g, b);
    assert BlockOk(h, g, a) && BlockOk(h, g, b);
    assert b in g.own && g.own[b] == b;
  }

  lemma {:induction false} Positive(h: Heap, g: Map, a: nat)
    requires Valid(h, g) && IsBlock(g, a)
    ensures a in h.size && h.size[a] > 0 && a > g.list[0]
  {
    if a in g.live {
      assert LiveOk(h, g, a);
    } else {
      var i :| 0 <= i < |g.list| && g.list[i] == a;
      assert FreeOk(h, g, i) && FreeOk(h, g, 0);
      assert Before(h, g.list[0], g.list[i]);
    }
  }

  /** The neighbours of a block that is to be freed. */
  lemma {:induction false} Neighbours(h: Heap, g: Map, a: nat, i: nat)
    requires Valid(h, g) && a in g.live && InGap(g, a, i)
    ensures a in h.size && g.list[i] in h.size && g.list[i] + h.size[g.list[i]] <= a
    ensures i + 1 < |g.list| ==> a + h.size[a] <= g.list[i + 1]
    ensures i == 0 ==> g.list[0] + h.size[g.list[0]] < a
  {
    assert LiveOk(h, g, a) && FreeOk(h, g, i) && FreeOk(h, g, 0);
    if i > 0 {
      assert Before(h, g.list[0], g.list[i]);
      Apart(h, g, g.list[i], a);
    }
    if i + 1 < |g.list| {
      assert Before(h, g.list[0], g.list[i + 1]);
      Apart(h, g, a, g.list[i + 1]);
    }
  }

  // ---- merging with the block above --------------------------------------------------------------------------

  ghost function Renamed(own: map<nat, nat>, a: nat, b: nat): map<nat, nat> {
    map u | u in own :: if own[u] == a then b else own[u]
  }

  /** The block `a` takes over the free block behind it, which leaves the list. */
  ghost function Absorbed(g: Map, a: nat, i: nat): Map
    requires i + 1 < |g.list|
  {
    Map(g.list[..i + 1] + g.list[i + 2..], g.live, Renamed(g.own, g.list[i + 1], a))
  }

  function Absorb(h: Heap, a: nat, p: nat, q: nat): Heap
    requires q in h.ptr && a in h.size && q in h.size
  {
    Heap(h.ptr[p := h.ptr[q]], h.size[a := h.size[a] + h.size[q]])
  }

  ghost predicate CanAbsorb(h: Heap, g: Map, a: nat, i: nat) {
    Valid(h, g) && a in g.live && InGap(g, a, i) && i + 1 < |g.list| && a in h.size && a + h.size[a] == g.list[i + 1]
  }

  lemma {:induction false} AbsorbFacts(h: Heap, g: Map, a: nat, i: nat)
    requires CanAbsorb(h, g, a, i)
    ensures g.list[i + 1] in h.ptr && g.list[i + 1] in h.size && IsBlock(g, g.list[i + 1]) && g.list[i] in h.size
    ensures g.list[i] != a && g.list[i + 1] != a && g.list[i + 1] !in g.live
    ensures i + 2 < |g.list| ==> g.list[i + 1] + h.size[g.list[i + 1]] < g.list[i + 2]
  {
    assert FreeOk(h, g, i) && FreeOk(h, g, i + 1);
    assert Before(h, g.list[0], g.list[i + 1]);
    assert i + 2 < |g.list| ==> Before(h, g.list[i + 1], g.list[i + 2]);
  }

  /** The places of the list behind the gap move up by one. */
  ghost function Shift(i: nat, k: nat): nat {
    if k <= i then k else k + 1
  }

  lemma {:induction false} AbsorbList(h: Heap, g: Map, a: nat, i: nat)
    requires CanAbsorb(h, g, a, i) && g.list[i + 1] in h.ptr && g.list[i + 1] in h.size
    ensures var h', g' := Absorb(h, a, g.list[i], g.list[i + 1]), Absorbed(g, a, i);
            && (forall k :: 0 <= k < |g'.list| ==> g'.list[k] == g.list[Shift(i, k)] && FreeOk(h', g', k))
            && (forall k, m :: 0 <= k < m < |g'.list| ==> Before(h', g'.list[k], g'.list[m]))
  {
    var h', g' := Absorb(h, a, g.list[i], g.list[i + 1]), Absorbed(g, a, i);
    AbsorbFacts(h, g, a, i);
    forall k | 0 <= k < |g'.list| ensures g'.list[k] == g.list[Shift(i, k)] && FreeOk(h', g', k) {
      assert FreeOk(h, g, Shift(i, k)) && FreeOk(h, g, i + 1);
      if Shift(i, k) != i {
        Ordered(h, g, Shift(i, k), i);
      }
    }
    forall k, m | 0 <= k < m < |g'.list| ensures Before(h', g'.list[k], g'.list[m]) {
      assert Before(h, g.list[Shift(i, k)], g.list[Shift(i, m)]);
      assert FreeOk(h, g, Shift(i, k));
    }
  }

  lemma {:induction false} Ordered(h: Heap, g: Map, i: nat, j: nat)
    requires Valid(h, g) && i < |g.list| && j < |g.list| && i != j
    ensures g.list[i] != g.list[j]
  {
    assert i < j ==> Before(h, g.list[i], g.list[j]);
    assert j < i ==> Before(h, g.list[j], g.list[i]);
  }

  lemma {:induction false} AbsorbBlocks(h: Heap, g: Map, a: nat, i: nat, b: nat)
    requires CanAbsorb(h, g, a, i) && g.list[i + 1] in h.ptr && g.list[i + 1] in h.size
    requires IsBlock(Absorbed(g, a, i), b)
    ensures IsBlock(g, b) && b != g.list[i + 1]
    ensures BlockOk(Absorb(h, a, g.list[i], g.list[i + 1]), Absorbed(g, a, i), b)
  {
    var g' := Absorbed(g, a, i);
    AbsorbFacts(h, g, a, i);
    if b in g'.list {
      var k :| 0 <= k < |g'.list| && g'.list[k] == b;
      assert g'.list[k] == g.list[Shift(i, k)];
      Ordered(h, g, Shift(i, k), i + 1);
      assert FreeOk(h, g, Shift(i, k));
      assert g'.list[0] == g.list[0];
    }
    assert BlockOk(h, g, b) && BlockOk(h, g, g.list[i + 1]) && BlockOk(h, g, a);
  }

  lemma {:induction false} AbsorbUnits(h: Heap, g: Map, a: nat, i: nat, u: nat)
    requires CanAbsorb(h, g, a, i) && g.list[i + 1] in h.ptr && g.list[i + 1] in h.size && u in g.own
    ensures UnitOk(Absorb(h, a, g.list[i], g.list[i + 1]), Absorbed(g, a, i), u)
  {
    var g' := Absorbed(g, a, i);
    AbsorbFacts(h, g, a, i);
    assert UnitOk(h, g, u);
    var b := g.own[u];
    if b != g.list[i + 1] && b !in g.live {
      var k :| 0 <= k < |g.list| && g.list[k] == b;
      assert k != i + 1;
      assert g'.list[if k <= i then k else k - 1] == b;
    }
  }

  lemma {:induction false} AbsorbValid(h: Heap, g: Map, a: nat, i: nat)
    requires CanAbsorb(h, g, a, i) && g.list[i + 1] in h.ptr && g.list[i + 1] in h.size
    ensures var h', g' := Absorb(h, a, g.list[i], g.list[i + 1]), Absorbed(g, a, i);
            && Valid(h', g') && InGap(g', a, i) && (i + 1 < |g'.list| ==> Before(h', a, g'.list[i + 1]))
            && g'.own.Keys == g.own.Keys && g'.list[i] == g.list[i]
  {
    hide FreeOk, BlockOk, UnitOk, Before;
    var h', g' := Absorb(h, a, g.list[i], g.list[i + 1]), Absorbed(g, a, i);
    AbsorbFacts(h, g, a, i);
    AbsorbList(h, g, a, i);
    forall b | IsBlock(g', b) ensures BlockOk(h', g', b) {
      AbsorbBlocks(h, g, a, i, b);
    }
    forall u | u in g'.own ensures UnitOk(h', g', u) {
      AbsorbUnits(h, g, a, i, u);
    }
    if i + 1 < |g'.list| {
      assert g'.list[i + 1] == g.list[i + 2];
      AbsorbGap(h, g, a, i);
    }
  }

  lemma {:induction false} AbsorbGap(h: Heap, g: Map, a: nat, i: nat)
    requires CanAbsorb(h, g, a, i) && i + 2 < |g.list| && g.list[i + 1] in h.ptr && g.list[i + 1] in h.size
    ensures Before(Absorb(h, a, g.list[i], g.list[i + 1]), a, g.list[i + 2])
  {
    AbsorbFacts(h, g, a, i);
  }

  // ---- merging with the block below --------------------------------------------------------------------------

  ghost function Joined(g: Map, a: nat, i: nat): Map
    requires i < |g.list|
  {
    Map(g.list, g.live - {a}, Renamed(g.own, a, g.list[i]))
  }

  function Join(h: Heap, a: nat, p: nat): Heap
    requires a in h.size && p in h.size
  {
    Heap(h.ptr, h.size[p := h.size[p] + h.size[a]])
  }

  ghost predicate CanJoin(h: Heap, g: Map, a: nat, i: nat) {
    && Valid(h, g) && a in g.live && InGap(g, a, i) && a in h.size && g.list[i] in h.size
      && g.list[i] + h.size[g.list[i]] == a
    && (i + 1 < |g.list| ==> Before(h, a, g.list[i + 1]))
  }

  lemma {:induction false} JoinFacts(h: Heap, g: Map, a: nat, i: nat)
    requires CanJoin(h, g, a, i)
    ensures i > 0 && IsBlock(g, g.list[i]) && g.list[i] != a && a !in g.list && g.list[i] !in g.live
  {
    assert FreeOk(h, g, 0) && FreeOk(h, g, i);
    assert i > 0 ==> Before(h, g.list[0], g.list[i]);
    forall k | 0 <= k < |g.list| ensures g.list[k] != a {
      assert FreeOk(h, g, k);
    }
  }

  lemma {:induction false} JoinList(h: Heap, g: Map, a: nat, i: nat)
    requires CanJoin(h, g, a, i)
    ensures var h', g' := Join(h, a, g.list[i]), Joined(g, a, i);
            && (forall k :: 0 <= k < |g.list| ==> FreeOk(h', g', k))
            && (forall k, m :: 0 <= k < m < |g.list| ==> Before(h', g.list[k], g.list[m]))
  {
    var h', g' := Join(h, a, g.list[i]), Joined(g, a, i);
    JoinFacts(h, g, a, i);
    forall k | 0 <= k < |g.list| ensures FreeOk(h', g', k) {
      assert FreeOk(h, g, k) && FreeOk(h, g, i);
      if k != i {
        Ordered(h, g, k, i);
      }
    }
    forall k, m | 0 <= k < m < |g.list| ensures Before(h', g.list[k], g.list[m]) {
      assert Before(h, g.list[k], g.list[m]);
      if k == i {
        assert m > i + 1 ==> Before(h, g.list[i + 1], g.list[m]);
      } else {
        Ordered(h, g, k, i);
      }
    }
  }

  lemma {:induction false} JoinBlocks(h: Heap, g: Map, a: nat, i: nat, b: nat)
    requires CanJoin(h, g, a, i) && IsBlock(Joined(g, a, i), b)
    ensures BlockOk(Join(h, a, g.list[i]), Joined(g, a, i), b)
  {
    JoinFacts(h, g, a, i);
    assert IsBlock(g, b) && b != a;
    assert BlockOk(h, g, b) && BlockOk(h, g, a) && BlockOk(h, g, g.list[i]);
  }

  lemma {:induction false} JoinUnits(h: Heap, g: Map, a: nat, i: nat, u: nat)
    requires CanJoin(h, g, a, i) && u in g.own
    ensures UnitOk(Join(h, a, g.list[i]), Joined(g, a, i), u)
  {
    JoinFacts(h, g, a, i);
    assert UnitOk(h, g, u);
  }

  lemma {:induction false} JoinValid(h: Heap, g: Map, a: nat, i: nat)
    requires CanJoin(h, g, a, i)
    ensures Valid(Join(h, a, g.list[i]), Joined(g, a, i)) && Joined(g, a, i).own.Keys == g.own.Keys
  {
    hide FreeOk, BlockOk, UnitOk, Before;
    var h', g' := Join(h, a, g.list[i]), Joined(g, a, i);
    JoinFacts(h, g, a, i);
    JoinList(h, g, a, i);
    forall b | b in g'.live ensures LiveOk(h', g', b) {
      assert LiveOk(h, g, b);
    }
    forall b | IsBlock(g', b) ensures BlockOk(h', g', b) {
      JoinBlocks(h, g, a, i, b);
    }
    forall u | u in g'.own ensures UnitOk(h', g', u) {
      JoinUnits(h, g, a, i, u);
    }
  }

  // ---- a new place in the list -------------------------------------------------------------------------------

  ghost function Inserted(g: Map, a: nat, i: nat): Map
    requires i < |g.list|
  {
    Map(g.list[..i + 1] + [a] + g.list[i + 1..], g.live - {a}, g.own)
  }

  function Insert(h: Heap, a: nat, p: nat): Heap
    requires p in h.ptr
  {
    Heap(h.ptr[a := h.ptr[p]][p := a], h.size)
  }

  ghost predicate CanInsert(h: Heap, g: Map, a: nat, i: nat) {
    && Valid(h, g) && a in g.live && InGap(g, a, i) && Before(h, g.list[i], a)
    && (i + 1 < |g.list| ==> Before(h, a, g.list[i + 1]))
  }

  /** Where an element of the longer list was in the shorter one. */
  ghost function Back(i: nat, k: nat): nat {
    if k <= i then k else k - 1
  }

  lemma {:induction false} InsertList(h: Heap, g: Map, a: nat, i: nat)
    requires CanInsert(h, g, a, i) && g.list[i] in h.ptr
    ensures var h', g' := Insert(h, a, g.list[i]), Inserted(g, a, i);
            && (forall k :: 0 <= k < |g'.list| ==>
              g'.list[k] == (if k == i + 1 then a else g.list[Back(i, k)]) && FreeOk(h', g', k))
            && (forall k, m :: 0 <= k < m < |g'.list| ==> Before(h', g'.list[k], g'.list[m]))
  {
    var h', g' := Insert(h, a, g.list[i]), Inserted(g, a, i);
    assert LiveOk(h, g, a);
    forall k | 0 <= k < |g'.list|
      ensures g'.list[k] == (if k == i + 1 then a else g.list[Back(i, k)]) && FreeOk(h', g', k) {
      assert FreeOk(h, g, i);
      if k != i + 1 {
        assert FreeOk(h, g, Back(i, k));
        if Back(i, k) != i {
          Ordered(h, g, Back(i, k), i);
        }
      }
    }
    forall k, m | 0 <= k < m < |g'.list| ensures Before(h', g'.list[k], g'.list[m]) {
      if k == i + 1 {
        assert m > i + 2 ==> Before(h, g.list[i + 1], g.list[m - 1]);
        assert FreeOk(h, g, m - 1);
      } else if m == i + 1 {
        assert k < i ==> Before(h, g.list[k], g.list[i]);
        assert FreeOk(h, g, k);
      } else {
        assert Before(h, g.list[Back(i, k)], g.list[Back(i, m)]);
      }
    }
  }

  lemma {:induction false} InsertBlocks(h: Heap, g: Map, a: nat, i: nat, b: nat)
    requires CanInsert(h, g, a, i)
    ensures IsBlock(Inserted(g, a, i), b) <==> IsBlock(g, b)
  {
    var g' := Inserted(g, a, i);
    assert LiveOk(h, g, a);
    assert g'.list[0] == g.list[0];
    if b in g.list {
      var k :| 0 <= k < |g.list| && g.list[k] == b;
      assert g'.list[if k <= i then k else k + 1] == b;
    }
    if b in g'.list && b != a {
      var k :| 0 <= k < |g'.list| && g'.list[k] == b;
      assert g.list[Back(i, k)] == b;
    }
    assert g'.list[i + 1] == a;
  }

  lemma {:induction false} InsertValid(h: Heap, g: Map, a: nat, i: nat)
    requires CanInsert(h, g, a, i) && g.list[i] in h.ptr
    ensures Valid(Insert(h, a, g.list[i]), Inserted(g, a, i))
  {
    hide FreeOk, Before, IsBlock;
    var h', g' := Insert(h, a, g.list[i]), Inserted(g, a, i);
    InsertList(h, g, a, i);
    forall b ensures IsBlock(g', b) <==> IsBlock(g, b) {
      InsertBlocks(h, g, a, i, b);
    }
    assert g'.list[0] == g.list[0];
    forall b | b in g'.live ensures LiveOk(h', g', b) {
      assert LiveOk(h, g, b);
    }
    forall b | IsBlock(g', b) ensures BlockOk(h', g', b) {
      assert BlockOk(h, g, b);
    }
    forall u | u in g'.own ensures UnitOk(h', g', u) {
      assert UnitOk(h, g, u);
    }
  }

  /** Pointers of blocks outside the list do not matter. */
  lemma {:induction false} StrayPointer(h: Heap, g: Map, a: nat, x: nat)
    requires Valid(h, g) && a in g.live
    ensures Valid(Heap(h.ptr[a := x], h.size), g)
  {
    var h' := Heap(h.ptr[a := x], h.size);
    forall k | 0 <= k < |g.list| ensures FreeOk(h', g, k) {
      assert FreeOk(h, g, k);
    }
    forall k, m | 0 <= k < m < |g.list| ensures Before(h', g.list[k], g.list[m]) {
      assert Before(h, g.list[k], g.list[m]);
    }
    forall b | b in g.live ensures LiveOk(h', g, b) {
      assert LiveOk(h, g, b);
    }
    forall b | IsBlock(g, b) ensures BlockOk(h', g, b) {
      assert BlockOk(h, g, b);
    }
    forall u | u in g.own ensures UnitOk(h', g, u) {
      assert UnitOk(h, g, u);
    }
  }

  // ---- handing out a whole block -----------------------------------------------------------------------------

  ghost function Unlinked(g: Map, i: nat): Map
    requires i + 1 < |g.list|
  {
    Map(g.list[..i + 1] + g.list[i + 2..], g.live + {g.list[i + 1]}, g.own)
  }

  function Unlink(h: Heap, p: nat, q: nat): Heap
    requires q in h.ptr
  {
    Heap(h.ptr[p := h.ptr[q]], h.size)
  }

  lemma {:induction false} UnlinkList(h: Heap, g: Map, i: nat)
    requires Valid(h, g) && i + 1 < |g.list| && g.list[i + 1] in h.ptr
    ensures var h', g' := Unlink(h, g.list[i], g.list[i + 1]), Unlinked(g, i);
            && (forall k :: 0 <= k < |g'.list| ==> g'.list[k] == g.list[Shift(i, k)] && FreeOk(h', g', k))
            && (forall k, m :: 0 <= k < m < |g'.list| ==> Before(h', g'.list[k], g'.list[m]))
  {
    var h', g' := Unlink(h, g.list[i], g.list[i + 1]), Unlinked(g, i);
    forall k | 0 <= k < |g'.list| ensures g'.list[k] == g.list[Shift(i, k)] && FreeOk(h', g', k) {
      assert FreeOk(h, g, Shift(i, k)) && FreeOk(h, g, i + 1);
      Ordered(h, g, Shift(i, k), i + 1);
      if Shift(i, k) != i {
        Ordered(h, g, Shift(i, k), i);
      }
    }
    forall k, m | 0 <= k < m < |g'.list| ensures Before(h', g'.list[k], g'.list[m]) {
      assert Before(h, g.list[Shift(i, k)], g.list[Shift(i, m)]);
    }
  }

  lemma {:induction false} UnlinkBlocks(h: Heap, g: Map, i: nat, b: nat)
    requires Valid(h, g) && i + 1 < |g.list|
    ensures IsBlock(Unlinked(g, i), b) <==> IsBlock(g, b)
  {
    var g' := Unlinked(g, i);
    assert g'.list[0] == g.list[0];
    Ordered(h, g, 0, i + 1);
    if b in g.list && b != g.list[i + 1] {
      var k :| 0 <= k < |g.list| && g.list[k] == b;
      assert g'.list[if k <= i then k else k - 1] == b;
    }
    if b in g'.list {
      var k :| 0 <= k < |g'.list| && g'.list[k] == b;
      assert g.list[Shift(i, k)] == b;
    }
  }

  lemma {:induction false} UnlinkValid(h: Heap, g: Map, i: nat)
    requires Valid(h, g) && i + 1 < |g.list| && g.list[i + 1] in h.ptr
    ensures Valid(Unlink(h, g.list[i], g.list[i + 1]), Unlinked(g, i))
  {
    hide Before, IsBlock;
    var h', g' := Unlink(h, g.list[i], g.list[i + 1]), Unlinked(g, i);
    UnlinkList(h, g, i);
    forall b ensures IsBlock(g', b) <==> IsBlock(g, b) {
      UnlinkBlocks(h, g, i, b);
    }
    assert g'.list[0] == g.list[0];
    forall b | b in g'.live ensures LiveOk(h', g', b) {
      if b == g.list[i + 1] {
        assert FreeOk(h, g, i + 1);
        assert Before(h, g.list[0], g.list[i + 1]);
        BeforeLess(h, g.list[0], g.list[i + 1]);
      } else {
        assert LiveOk(h, g, b);
      }
    }
    forall b | IsBlock(g', b) ensures BlockOk(h', g', b) {
      assert BlockOk(h, g, b);
    }
    forall u | u in g'.own ensures UnitOk(h', g', u) {
      assert UnitOk(h, g, u);
    }
  }

  lemma {:induction false} BeforeLess(h: Heap, a: nat, b: nat)
    requires Before(h, a, b)
    ensures a < b
  {
  }

  // ---- handing out the tail of a block -----------------------------------------------------------------------

  /** The last `n` units of the block `p` become a block of their own. */
  ghost function Split(g: Map, p: nat, c: nat): Map {
    Map(g.list, g.live + {c}, map u | u in g.own :: if g.own[u] == p && c <= u then c else g.own[u])
  }

  function Cut(h: Heap, p: nat, n: nat): Heap
    requires p in h.size && 0 < n < h.size[p]
  {
    Heap(h.ptr, h.size[p := h.size[p] - n][p + (h.size[p] - n) := n])
  }

  ghost predicate CanCut(h: Heap, g: Map, i: nat, n: nat) {
    Valid(h, g) && 0 < i < |g.list| && g.list[i] in h.size && 0 < n < h.size[g.list[i]]
  }

  lemma {:induction false} CutFacts(h: Heap, g: Map, i: nat, n: nat, b: nat)
    requires CanCut(h, g, i, n)
    ensures var p := g.list[i]; var c := p + (h.size[p] - n);
            && IsBlock(g, p) && p < c && c in g.own && g.own[c] == p && c > g.list[0]
            && (IsBlock(g, b) ==> b != c) && (b in g.list ==> b != c) && c !in g.live
  {
    var p := g.list[i];
    var c := p + (h.size[p] - n);
    Ordered(h, g, 0, i);
    assert IsBlock(g, p) && BlockOk(h, g, p);
    assert Before(h, g.list[0], g.list[i]);
    NotBlockInside(h, g, c);
    assert b in g.list && b != g.list[0] ==> IsBlock(g, b);
  }

  lemma {:induction false} NotBlockInside(h: Heap, g: Map, c: nat)
    requires Valid(h, g) && c in g.own && g.own[c] != c
    ensures !IsBlock(g, c)
  {
    if IsBlock(g, c) {
      Positive(h, g, c);
    }
  }

  lemma {:induction false} CutList(h: Heap, g: Map, i: nat, n: nat)
    requires CanCut(h, g, i, n)
    ensures var h', g' := Cut(h, g.list[i], n), Split(g, g.list[i], g.list[i] + (h.size[g.list[i]] - n));
            && (forall k :: 0 <= k < |g.list| ==> FreeOk(h', g', k))
            && (forall k, m :: 0 <= k < m < |g.list| ==> Before(h', g.list[k], g.list[m]))
  {
    var h', g' := Cut(h, g.list[i], n), Split(g, g.list[i], g.list[i] + (h.size[g.list[i]] - n));
    forall k | 0 <= k < |g.list| ensures FreeOk(h', g', k) {
      assert FreeOk(h, g, k) && FreeOk(h, g, i);
      CutFacts(h, g, i, n, g.list[k]);
      if k != i {
        Ordered(h, g, k, i);
      }
    }
    forall k, m | 0 <= k < m < |g.list| ensures Before(h', g.list[k], g.list[m]) {
      CutFacts(h, g, i, n, g.list[k]);
      assert Before(h, g.list[k], g.list[m]);
      assert FreeOk(h, g, k);
    }
  }

  lemma {:induction false} CutBlocks(h: Heap, g: Map, i: nat, n: nat, b: nat)
    requires CanCut(h, g, i, n)
    requires IsBlock(Split(g, g.list[i], g.list[i] + (h.size[g.list[i]] - n)), b)
    ensures BlockOk(Cut(h, g.list[i], n), Split(g, g.list[i], g.list[i] + (h.size[g.list[i]] - n)), b)
  {
    CutFacts(h, g, i, n, b);
    assert BlockOk(h, g, g.list[i]);
    if IsBlock(g, b) {
      assert BlockOk(h, g, b);
    }
  }

  lemma {:induction false} CutUnits(h: Heap, g: Map, i: nat, n: nat, u: nat)
    requires CanCut(h, g, i, n) && u in g.own
    ensures UnitOk(Cut(h, g.list[i], n), Split(g, g.list[i], g.list[i] + (h.size[g.list[i]] - n)), u)
  {
    assert UnitOk(h, g, u);
    CutFacts(h, g, i, n, g.own[u]);
  }

  lemma {:induction false} CutValid(h: Heap, g: Map, i: nat, n: nat)
    requires CanCut(h, g, i, n)
    ensures var p := g.list[i]; var c := p + (h.size[p] - n);
            Valid(Cut(h, p, n), Split(g, p, c)) && Split(g, p, c).own.Keys == g.own.Keys && c !in g.live
  {
    hide FreeOk, Before, BlockOk, UnitOk;
    var p := g.list[i];
    var c := p + (h.size[p] - n);
    var h', g' := Cut(h, p, n), Split(g, p, c);
    CutList(h, g, i, n);
    CutFacts(h, g, i, n, p);
    forall b | b in g'.live ensures LiveOk(h', g', b) {
      if b != c {
        assert LiveOk(h, g, b);
        CutFacts(h, g, i, n, b);
        NotLive(h, g, i, b);
      }
    }
    forall b | IsBlock(g', b) ensures BlockOk(h', g', b) {
      CutBlocks(h, g, i, n, b);
    }
    forall u | u in g'.own ensures UnitOk(h', g', u) {
      CutUnits(h, g, i, n, u);
    }
  }

  lemma {:induction false} NotLive(h: Heap, g: Map, i: nat, b: nat)
    requires Valid(h, g) && i < |g.list| && b in g.live
    ensures b != g.list[i]
  {
    assert FreeOk(h, g, i);
  }

  // ---- more memory from the system ---------------------------------------------------------------------------

  ghost function Range(b: nat, n: nat): (r: map<nat, nat>)
    ensures forall u :: u in r <==> b <= u < b + n
    ensures forall u :: u in r ==> r[u] == b
  {
    if n == 0 then map[] else Range(b, n - 1)[b + n - 1 := b]
  }

  /** The new region as one block that is handed out. */
  ghost function Extended(g: Map, b: nat, n: nat): Map {
    Map(g.list, g.live + {b}, g.own + Range(b, n))
  }

  ghost predicate IsNew(g: Map, b: nat, n: nat) {
    g.list != [] && g.list[0] < b && n > 0 && forall u :: b <= u < b + n ==> u !in g.own
  }

  lemma {:induction false} NewNotBlock(h: Heap, g: Map, b: nat, n: nat)
    requires Valid(h, g) && IsNew(g, b, n)
    ensures !IsBlock(g, b) && b !in g.list
  {
    assert b !in g.own;
    if IsBlock(g, b) {
      Positive(h, g, b);
    }
  }

  lemma {:induction false} ExtendList(h: Heap, g: Map, b: nat, n: nat)
    requires Valid(h, g) && IsNew(g, b, n) && b !in g.list
    ensures var h', g' := Heap(h.ptr, h.size[b := n]), Extended(g, b, n);
            && (forall k :: 0 <= k < |g.list| ==> FreeOk(h', g', k))
            && (forall k, m :: 0 <= k < m < |g.list| ==> Before(h', g.list[k], g.list[m]))
  {
    var h', g' := Heap(h.ptr, h.size[b := n]), Extended(g, b, n);
    forall k | 0 <= k < |g.list| ensures FreeOk(h', g', k) {
      assert FreeOk(h, g, k) && g.list[k] in g.list;
    }
    forall k, m | 0 <= k < m < |g.list| ensures Before(h', g.list[k], g.list[m]) {
      assert g.list[k] in g.list;
      SameBefore(h, h', g.list[k], g.list[m]);
    }
  }

  lemma {:induction false} ExtendValid(h: Heap, g: Map, b: nat, n: nat)
    requires Valid(h, g) && IsNew(g, b, n)
    ensures Valid(Heap(h.ptr, h.size[b := n]), Extended(g, b, n)) && b !in g.live
  {
    hide Before, FreeOk;
    var h', g' := Heap(h.ptr, h.size[b := n]), Extended(g, b, n);
    NewNotBlock(h, g, b, n);
    ExtendList(h, g, b, n);
    forall a | IsBlock(g', a) ensures BlockOk(h', g', a) {
      if a != b {
        assert BlockOk(h, g, a);
        NewApart(h, g, a, b, n);
      }
    }
    forall a | a in g'.live ensures LiveOk(h', g', a) {
      assert a != b ==> LiveOk(h, g, a);
    }
    forall u | u in g'.own ensures UnitOk(h', g', u) {
      if u in g.own {
        assert UnitOk(h, g, u);
      }
    }
  }

  lemma {:induction false} SameBefore(h: Heap, h': Heap, a: nat, b: nat)
    requires Before(h, a, b) && a in h'.size && h'.size[a] == h.size[a]
    ensures Before(h', a, b)
  {
  }

  lemma {:induction false} NewApart(h: Heap, g: Map, a: nat, b: nat, n: nat)
    requires BlockOk(h, g, a) && IsNew(g, b, n)
    ensures forall u :: a <= u < a + h.size[a] ==> u in Extended(g, b, n).own && Extended(g, b, n).own[u] == a
  {
  }
}
