/** `malloc` and `free`. */
module Malloc {
  import opened MallocHeap
  import opened Options

  /** The units that a request takes: its bytes, rounded up, and a header of 16 bytes. */
  function Units(nbytes: nat): (n: nat)
    ensures 16 * (n - 1) >= nbytes && n > 0
  {
    (nbytes + 16 - 1) / 16 + 1
  }

  // ---- what `sbrk` is asked for ------------------------------------------------------------------------------

  const U32: nat := 0x1_0000_0000

  /** The largest request whose memory `sbrk` is asked for in full, 2^31 - 32 bytes. */
  const MAX_REQUEST: nat := 0x7fff_ffe0

  /** The conversion of a 64-bit value to `int`. */
  function IntOf(x: nat): int {
    if x % U32 < U32 / 2 then x % U32 else x % U32 - U32
  }

  function SbrkArgument(nunits: nat): int {
    IntOf(16 * Chunk(nunits))
  }

  /** The units that a successful `sbrk` adds. */
  function Granted(nunits: nat): nat {
    if SbrkArgument(nunits) < 0 then 0 else SbrkArgument(nunits) / 16
  }

  /** `sbrk` takes an `int`: it is asked for as many bytes as `morecore` links into the list if and only if the request
      is at most MAX_REQUEST; for every larger one it is asked for less, or to give memory back. */
  lemma {:induction false} SbrkGrantsIff(nbytes: nat)
    requires nbytes < U32
    ensures SbrkArgument(Units(nbytes)) == 16 * Chunk(Units(nbytes)) <==> nbytes <= MAX_REQUEST
    ensures Granted(Units(nbytes)) == Chunk(Units(nbytes)) <==> nbytes <= MAX_REQUEST
    ensures nbytes > MAX_REQUEST ==> Granted(Units(nbytes)) < Chunk(Units(nbytes))
  {
    var n := Units(nbytes);
    assert n <= 0x1000_0001 && (n <= 0x7ff_ffff <==> nbytes <= MAX_REQUEST);
    if n > 0x7ff_ffff {
      assert Chunk(n) == n;
      assert n >= 0x1000_0000 ==> 16 * n % U32 == 16 * n - U32;
      assert n < 0x1000_0000 ==> 16 * n % U32 == 16 * n;
    }
  }

  /** The largest request gets one unit, under a header that claims 2^28 + 1. */
  lemma {:induction false} LargestRequest()
    ensures Units(U32 - 1) == Chunk(Units(U32 - 1)) == 0x1000_0001 && SbrkArgument(Units(U32 - 1)) == 16
      && Granted(Units(U32 - 1)) == 1
  {
  }

  /** How far it is from one place of a circular list to another. */
  function Distance(from: nat, to: nat, n: nat): nat
    requires from < n && to < n
  {
    if from <= to then to - from else to + n - from
  }

  /** Blocks in use and units of other blocks are left alone. */
  ghost predicate Undisturbed(h: Heap, g: Map, h': Heap, g': Map, live: set<nat>) {
    && live <= g.live && live <= g'.live
    && (forall a :: a in live && a in h.size ==> a in h'.size && h'.size[a] == h.size[a])
    && (forall u :: u in g.own && g.own[u] in live ==> u in g'.own && g'.own[u] == g.own[u])
  }

  class Allocator {
    const base: nat
    var heap: Heap
    var freep: Option<nat>
    ghost var g: Map

    ghost predicate Ready()
      reads this
    {
      Valid(heap, g) && g.list[0] == base && freep.Some? && freep.value in g.list
    }

    ghost predicate Ok()
      reads this
    {
      if freep.None? then g == Map([], {}, map[]) else Ready()
    }

    constructor (base: nat)
      ensures Ok() && freep.None? && this.base == base
    {
      this.base := base;
      heap, freep := Heap(map[], map[]), None;
      g := Map([], {}, map[]);
    }

    /** The loop of `free`: the free block below `bp`.  It ends because it goes round the list at most once. */
    method FindGap(bp: nat) returns (p: nat, ghost i: nat)
      requires Ready() && bp in g.live
      ensures i < |g.list| && g.list[i] == p && InGap(g, bp, i)
    {
      hide BlockOk, UnitOk;
      GapOf(heap, g, bp);
      ghost var gap :| InGap(g, bp, gap);
      p := freep.value;
      i :| 0 <= i < |g.list| && g.list[i] == p;
      Turn(heap, g, bp, i, gap);
      while !(bp > p && bp < heap.ptr[p])
        invariant i < |g.list| && g.list[i] == p && p in heap.ptr && heap.ptr[p] == NextOf(g.list, i)
        decreases Distance(i, gap, |g.list|)
      {
        Turn(heap, g, bp, i, gap);
        if p >= heap.ptr[p] && (bp > p || bp < heap.ptr[p]) {
          break;
        }
        p := heap.ptr[p];
        i := if i + 1 < |g.list| then i + 1 else 0;
        Turn(heap, g, bp, i, gap);
      }
      Turn(heap, g, bp, i, gap);
    }

    /** The first half of the end of `free`: takes in the free block above, if it touches.  The list itself is mended by
        the second half; `h1` and `g1` are what it amounts to meanwhile. */
    method MergeAbove(bp: nat, p: nat, ghost i: nat) returns (ghost h1: Heap, ghost g1: Map)
      requires Ready() && bp in g.live && InGap(g, bp, i) && g.list[i] == p
      modifies this`heap
      ensures Valid(h1, g1) && g1.live == g.live && g1.own.Keys == g.own.Keys && InGap(g1, bp, i) && g1.list[i] == p
        && g1.list[0] == base
      ensures i + 1 < |g1.list| ==> Before(h1, bp, g1.list[i + 1])
      ensures heap.size == h1.size && p in h1.ptr && heap.ptr[p := h1.ptr[p]] == h1.ptr[bp := h1.ptr[p]]
        && bp in heap.ptr && heap.ptr[bp] == h1.ptr[p]
      ensures g1 == g || (i + 1 < |g.list| && g1 == Absorbed(g, bp, i))
      ensures bp in old(heap).size && bp in heap.size && heap.size[bp] >= old(heap).size[bp]
      ensures forall b :: b in old(heap).size && b != bp ==> b in heap.size && heap.size[b] == old(heap).size[b]
    {
      hide Valid;
      Neighbours(heap, g, bp, i);
      ListFacts(heap, g, i);
      h1, g1 := heap, g;
      var q := heap.ptr[p];
      if bp + heap.size[bp] == q {
        Touches(heap, g, bp, i);
        AbsorbValid(heap, g, bp, i);
        h1, g1 := Absorb(heap, bp, p, q), Absorbed(g, bp, i);
        heap := Heap(heap.ptr[bp := heap.ptr[q]], heap.size[bp := heap.size[bp] + heap.size[q]]);
      } else {
        heap := Heap(heap.ptr[bp := heap.ptr[p]], heap.size);
      }
      ListFacts(h1, g1, i);
      NoTouch(heap, old(heap), h1, g, g1, bp, i);
      assert heap.ptr[p := h1.ptr[p]] == h1.ptr[bp := h1.ptr[p]];
    }

    /** `free`: gives the block back and merges it with the free blocks that touch it. */
    method Free(bp: nat) returns (ghost j: nat)
      requires Ready() && bp in g.live
      modifies this
      ensures Ready() && g.live == old(g).live - {bp} && g.own.Keys == old(g).own.Keys
      ensures Undisturbed(old(heap), old(g), heap, g, g.live)
      ensures bp in old(heap).size
      ensures 0 < j < |g.list| && g.list[j] in heap.size && heap.size[g.list[j]] >= old(heap).size[bp]
    {
      hide Valid, Undisturbed;
      ghost var i;
      var p;
      p, i := FindGap(bp);
      ListFacts(heap, g, i);
      ghost var h1, g1 := MergeAbove(bp, p, i);
      FreeValid(h1, g1, bp, i);
      if p + heap.size[p] == bp {
        heap := Heap(heap.ptr[p := heap.ptr[bp]], heap.size[p := heap.size[p] + heap.size[bp]]);
        g := Joined(g1, bp, i);
        j := i;
      } else {
        assert heap.ptr[p := bp] == h1.ptr[bp := h1.ptr[p]][p := bp];
        heap := Heap(heap.ptr[p := bp], heap.size);
        g := Inserted(g1, bp, i);
        j := i + 1;
      }
      freep := Some(p);
      assert g.list[i] == p;
      LeftAlone(old(heap), heap, old(g), g1, g, bp, i);
    }

    /** `morecore`: a region from the system, at least 4096 units, joins the free list.  What `sbrk` was asked for must
        cover what the header says, which `SbrkGrantsIff` decides. */
    method MoreCore(nunits: nat, brk: Option<nat>) returns (ok: bool, ghost big: nat)
      requires Ready() && (brk.Some? ==> IsNew(g, brk.value, Granted(nunits)) && Granted(nunits) == Chunk(nunits))
      modifies this
      ensures Ready() && ok == brk.Some? && g.live == old(g).live
      ensures !ok ==> heap == old(heap) && g == old(g) && freep == old(freep)
      ensures ok ==>
        && 0 < big < |g.list| && g.list[big] in heap.size && heap.size[g.list[big]] >= nunits
        && g.own.Keys == old(g).own.Keys + Range(brk.value, Chunk(nunits)).Keys
        && Undisturbed(old(heap), old(g), heap, g, g.live)
    {
      hide Valid, Undisturbed;
      big := 0;
      if brk.None? {
        return false, 0;
      }
      var nu := Chunk(nunits);
      var hp := brk.value;
      ExtendValid(heap, g, hp, nu);
      heap := Heap(heap.ptr, heap.size[hp := nu]);
      g := Extended(g, hp, nu);
      ghost var h1, g1 := heap, g;
      big := Free(hp);
      assert g.live == old(g).live;
      NewUndisturbed(old(heap), old(g), hp, nu);
      UndisturbedTrans(old(heap), old(g), h1, g1, heap, g, g.live);
      ok := true;
    }

    /** Takes a block that is large enough off the list, or its tail. */
    method Take(prevp: nat, p: nat, nunits: nat, ghost i: nat) returns (bp: nat)
      requires Ready() && i < |g.list| && g.list[i] == prevp && p == NextOf(g.list, i) && 0 < nunits
      requires p in heap.size && heap.size[p] >= nunits
      modifies this
      ensures Ready() && bp !in old(g).live && g.live == old(g).live + {bp} && bp in heap.size
        && heap.size[bp] == nunits
      ensures g.own.Keys == old(g).own.Keys && Undisturbed(old(heap), old(g), heap, g, old(g).live)
    {
      hide Valid, Undisturbed;
      NextInner(heap, g, i);
      ListFacts(heap, g, i);
      ListFacts(heap, g, i + 1);
      if heap.size[p] == nunits {
        UnlinkValid(heap, g, i);
        heap := Heap(heap.ptr[prevp := heap.ptr[p]], heap.size);
        g := Unlinked(g, i);
        bp := p;
        assert g.list[i] == prevp && g.list[0] == old(g).list[0];
        UnlinkUndisturbed(old(heap), old(g), heap, g, i);
      } else {
        CutValid(heap, g, i + 1, nunits);
        var size := heap.size[p] - nunits;
        bp := p + size;
        g := Split(g, p, bp);
        heap := Heap(heap.ptr, heap.size[p := size][bp := nunits]);
        CutUndisturbed(old(heap), old(g), i + 1, nunits);
      }
      freep := Some(prevp);
    }

    /** The loop of `malloc` from `freep` on, up to a block that is large enough or once round the list. */
    method Search(nunits: nat) returns (found: bool, prevp: nat, p: nat, ghost i: nat)
      requires Ready()
      ensures i < |g.list| && g.list[i] == prevp && p == NextOf(g.list, i) && p in heap.size
      ensures found ==> heap.size[p] >= nunits
      ensures !found ==> TooSmall(heap, g, nunits)
    {
      hide Valid, TooSmall;
      prevp := freep.value;
      i :| 0 <= i < |g.list| && g.list[i] == prevp;
      ghost var s: nat := i;
      ListFacts(heap, g, i);
      p := heap.ptr[prevp];
      NothingVisited(heap, g, s, nunits);
      while true
        invariant i < |g.list| && g.list[i] == prevp && p == NextOf(g.list, i)
        invariant Visited(heap, g, s, After(i, |g.list|), nunits)
        decreases |g.list| - Distance(After(s, |g.list|), After(i, |g.list|), |g.list|)
      {
        ghost var k := After(i, |g.list|);
        ListFacts(heap, g, k);
        if heap.size[p] >= nunits {
          found := true;
          return;
        }
        if p == freep.value {
          SameIndex(heap, g, k, s);
          AllVisited(heap, g, s, nunits);
          found := false;
          return;
        }
        OneMoreVisited(heap, g, s, k, nunits);
        prevp := p;
        p := heap.ptr[p];
        i := k;
      }
    }

    /** `malloc`: a block of its own for the request.  `brk` is what the system would answer to a request for more
        memory; that one answer is enough, and the search ends.  It fails only if no free block is large enough and the
        system has no more memory; nothing is then lost. */
    method Malloc(nbytes: nat, brk: Option<nat>) returns (r: Option<nat>)
      requires Ok() && nbytes < U32
      requires brk.Some? ==>
        nbytes <= MAX_REQUEST && base < brk.value && forall u :: brk.value <= u < brk.value + Granted(Units(nbytes)) ==>
            u !in g.own
      modifies this
      ensures Ready()
      ensures r.Some? ==>
        && r.value > 0 && r.value - 1 !in old(g).live && g.live == old(g).live + {r.value - 1}
        && r.value - 1 in heap.size && heap.size[r.value - 1] == Units(nbytes)
        && Undisturbed(old(heap), old(g), heap, g, old(g).live)
        && (g.own.Keys == old(g).own.Keys
          || (brk.Some? && g.own.Keys == old(g).own.Keys + Range(brk.value, Chunk(Units(nbytes))).Keys))
      ensures r.None? ==> brk.None? && g.live == old(g).live && g.own == old(g).own && TooSmall(heap, g, Units(nbytes))
    {
      hide Valid, Undisturbed, TooSmall, Granted;
      SbrkGrantsIff(nbytes);
      var nunits := Units(nbytes);
      UndisturbedRefl(heap, g);
      if freep.None? {
        heap := Heap(map[base := base], map[base := 0]);
        freep := Some(base);
        g := Map([base], {}, map[]);
        FirstValid(base, old(heap), heap);
      }
      var found, prevp, p;
      ghost var i;
      found, prevp, p, i := Search(nunits);
      if !found {
        ghost var h1, g1 := heap, g;
        var ok;
        ghost var big;
        ok, big := MoreCore(nunits, brk);
        if !ok {
          return None;
        }
        UndisturbedTrans(old(heap), old(g), h1, g1, heap, g, g.live);
        found, prevp, p, i := Search(nunits);
        if !found {
          TooSmallAt(heap, g, nunits, big);
          assert false;
        }
      }
      ghost var h1, g1 := heap, g;
      var bp := Take(prevp, p, nunits, i);
      UndisturbedTrans(old(heap), old(g), h1, g1, heap, g, old(g).live);
      return Some(bp + 1);
    }
  }

  function Chunk(nunits: nat): (n: nat)
    ensures n >= nunits && n > 0
  {
    if nunits < 4096 then 4096 else nunits
  }

  /** The place behind `i` in a circular list. */
  function After(i: nat, n: nat): (k: nat)
    requires i < n
    ensures k < n
  {
    if i + 1 < n then i + 1 else 0
  }

  ghost predicate TooSmall(h: Heap, g: Map, nunits: nat) {
    forall j :: 0 <= j < |g.list| ==> g.list[j] in h.size && h.size[g.list[j]] < nunits
  }

  /** The blocks from the one behind place `s` up to place `k` are too small. */
  ghost predicate Visited(h: Heap, g: Map, s: nat, k: nat, nunits: nat)
    requires s < |g.list| && k < |g.list|
  {
    var n := |g.list|;
    forall j :: 0 <= j < n && Distance(After(s, n), j, n) < Distance(After(s, n), k, n) ==>
      g.list[j] in h.size && h.size[g.list[j]] < nunits
  }

  lemma {:induction false} NothingVisited(h: Heap, g: Map, s: nat, nunits: nat)
    requires s < |g.list|
    ensures Visited(h, g, s, After(s, |g.list|), nunits)
  {
  }

  lemma {:induction false} OneMoreVisited(h: Heap, g: Map, s: nat, k: nat, nunits: nat)
    requires s < |g.list| && k < |g.list| && k != s && Visited(h, g, s, k, nunits) && g.list[k] in h.size
      && h.size[g.list[k]] < nunits
    ensures Visited(h, g, s, After(k, |g.list|), nunits)
    ensures Distance(After(s, |g.list|), After(k, |g.list|), |g.list|) == Distance(After(s, |g.list|), k, |g.list|) + 1
  {
    var n := |g.list|;
    forall j | 0 <= j < n && Distance(After(s, n), j, n) < Distance(After(s, n), After(k, n), n)
      ensures g.list[j] in h.size && h.size[g.list[j]] < nunits
    {
      if j != k {
        assert Distance(After(s, n), j, n) < Distance(After(s, n), k, n);
      }
    }
  }

  lemma {:induction false} AllVisited(h: Heap, g: Map, s: nat, nunits: nat)
    requires s < |g.list| && Visited(h, g, s, s, nunits) && g.list[s] in h.size && h.size[g.list[s]] < nunits
    ensures TooSmall(h, g, nunits)
  {
    var n := |g.list|;
    forall j | 0 <= j < n ensures g.list[j] in h.size && h.size[g.list[j]] < nunits {
      if j != s {
        assert Distance(After(s, n), j, n) < Distance(After(s, n), s, n);
      }
    }
  }

  lemma {:induction false} TooSmallAt(h: Heap, g: Map, nunits: nat, j: nat)
    requires TooSmall(h, g, nunits) && j < |g.list|
    ensures g.list[j] in h.size && h.size[g.list[j]] < nunits
  {
  }

  lemma {:induction false} SameIndex(h: Heap, g: Map, i: nat, j: nat)
    requires Valid(h, g) && i < |g.list| && j < |g.list| && g.list[i] == g.list[j]
    ensures i == j
  {
    if i != j {
      Ordered(h, g, i, j);
    }
  }

  /** A block with units in it is not the one at the start of the list. */
  lemma {:induction false} NextInner(h: Heap, g: Map, i: nat)
    requires Valid(h, g) && i < |g.list| && NextOf(g.list, i) in h.size && h.size[NextOf(g.list, i)] > 0
    ensures i + 1 < |g.list|
  {
    ListFacts(h, g, 0);
  }

  lemma {:induction false} FirstValid(base: nat, was: Heap, h: Heap)
    requires h == Heap(map[base := base], map[base := 0])
    ensures Valid(h, Map([base], {}, map[])) && Undisturbed(was, Map([], {}, map[]), h, Map([base], {}, map[]), {})
  {
  }

  lemma {:induction false} UndisturbedRefl(h: Heap, g: Map)
    ensures Undisturbed(h, g, h, g, g.live)
  {
  }

  lemma {:induction false} UndisturbedTrans(h: Heap, g: Map, h1: Heap, g1: Map, h2: Heap, g2: Map, live: set<nat>)
    requires Undisturbed(h, g, h1, g1, live) && Undisturbed(h1, g1, h2, g2, live)
    ensures Undisturbed(h, g, h2, g2, live)
  {
  }

  lemma {:induction false} NewUndisturbed(h: Heap, g: Map, b: nat, n: nat)
    requires Valid(h, g) && IsNew(g, b, n)
    ensures Undisturbed(h, g, Heap(h.ptr, h.size[b := n]), Extended(g, b, n), g.live)
  {
    NewNotBlock(h, g, b, n);
  }

  lemma {:induction false} UnlinkUndisturbed(h: Heap, g: Map, h': Heap, g': Map, i: nat)
    requires i + 1 < |g.list| && g' == Unlinked(g, i) && h'.size == h.size
    ensures Undisturbed(h, g, h', g', g.live)
  {
  }

  lemma {:induction false} CutUndisturbed(h: Heap, g: Map, i: nat, n: nat)
    requires CanCut(h, g, i, n)
    ensures Undisturbed(h, g, Cut(h, g.list[i], n), Split(g, g.list[i], g.list[i] + (h.size[g.list[i]] - n)), g.live)
  {
    ListFacts(h, g, i);
    CutFacts(h, g, i, n, g.list[i]);
  }

  lemma {:induction false} GapOf(h: Heap, g: Map, a: nat)
    requires Valid(h, g) && a in g.live
    ensures exists i :: InGap(g, a, i)
  {
    Positive(h, g, a);
    var i := GapExists(h, g, a, |g.list|);
    if i + 1 < |g.list| && g.list[i + 1] == a {
      NotLive(h, g, i + 1, a);
    }
    assert InGap(g, a, i);
  }

  lemma {:induction false} ListFacts(h: Heap, g: Map, i: nat)
    requires Valid(h, g) && i < |g.list|
    ensures g.list[i] in h.ptr && g.list[i] in h.size && h.ptr[g.list[i]] == NextOf(g.list, i) && g.list[i] !in g.live
    ensures h.size[g.list[i]] == 0 <==> i == 0
  {
    assert FreeOk(h, g, i);
  }

  /** A turn of the search: it stops exactly in the gap. */
  lemma {:induction false} Turn(h: Heap, g: Map, a: nat, i: nat, gap: nat)
    requires Valid(h, g) && a in g.live && i < |g.list| && InGap(g, a, gap)
    ensures g.list[i] in h.ptr && h.ptr[g.list[i]] == NextOf(g.list, i)
    ensures i == gap <==>
      (g.list[i] < a < NextOf(g.list, i))
          || (g.list[i] >= NextOf(g.list, i) && (a > g.list[i] || a < NextOf(g.list, i)))
  {
    hide BlockOk, UnitOk;
    ListFacts(h, g, i);
    Positive(h, g, a);
    if i + 1 < |g.list| {
      Rises(h, g, i, i + 1);
    } else if i > 0 {
      Rises(h, g, 0, i);
    }
    if i < gap {
      Rises(h, g, i, gap);
      if i + 1 < gap {
        Rises(h, g, i + 1, gap);
      }
    } else if gap < i {
      Rises(h, g, gap, i);
      if gap + 1 < i {
        Rises(h, g, gap + 1, i);
      }
    }
  }

  lemma {:induction false} Rises(h: Heap, g: Map, i: nat, j: nat)
    requires Valid(h, g) && i < j < |g.list|
    ensures g.list[i] < g.list[j]
  {
    assert Before(h, g.list[i], g.list[j]);
  }

  /** A successor that touches from above is the next block of the list. */
  lemma {:induction false} Touches(h: Heap, g: Map, a: nat, i: nat)
    requires Valid(h, g) && a in g.live && InGap(g, a, i) && a in h.size && a + h.size[a] == NextOf(g.list, i)
    ensures i + 1 < |g.list| && g.list[i + 1] in h.ptr && g.list[i + 1] in h.size
  {
    Positive(h, g, a);
    if i + 1 < |g.list| {
      ListFacts(h, g, i + 1);
    }
  }

  /** After the upper merge nothing touches from above. */
  lemma {:induction false} NoTouch(now: Heap, h: Heap, h1: Heap, g: Map, g1: Map, a: nat, i: nat)
    requires Valid(h, g) && a in g.live && InGap(g, a, i) && a in h.size && now.size == h1.size
    requires (h1 == h && g1 == g && a + h.size[a] != NextOf(g.list, i))
      || (a in h1.size && InGap(g1, a, i) && (i + 1 < |g1.list| ==> Before(h1, a, g1.list[i + 1])))
    ensures i + 1 < |g1.list| ==> Before(h1, a, g1.list[i + 1])
  {
    Neighbours(h, g, a, i);
  }

  lemma {:induction false} FreeValid(h: Heap, g: Map, a: nat, i: nat)
    requires Valid(h, g) && a in g.live && InGap(g, a, i) && (i + 1 < |g.list| ==> Before(h, a, g.list[i + 1]))
    ensures a in h.size && g.list[i] in h.size && g.list[i] in h.ptr
    ensures var p := g.list[i];
            if p + h.size[p] == a
            then Valid(Join(Heap(h.ptr[a := h.ptr[p]], h.size), a, p), Joined(g, a, i)) && i > 0
                && Joined(g, a, i).own.Keys == g.own.Keys
            else Valid(Insert(h, a, p), Inserted(g, a, i))
  {
    ListFacts(h, g, i);
    Neighbours(h, g, a, i);
    var p := g.list[i];
    if p + h.size[p] == a {
      StrayPointer(h, g, a, h.ptr[p]);
      assert CanJoin(h, g, a, i);
      JoinFacts(h, g, a, i);
      JoinValid(Heap(h.ptr[a := h.ptr[p]], h.size), g, a, i);
    } else {
      InsertValid(h, g, a, i);
    }
  }

  lemma {:induction false} LeftAlone(h: Heap, h': Heap, g: Map, g1: Map, g': Map, a: nat, i: nat)
    requires Valid(h, g) && a in g.live && i < |g.list| && a in h.size && g.list[i] in h.size
    requires g1 == g || (i + 1 < |g.list| && g1 == Absorbed(g, a, i))
    requires i < |g1.list| && g1.list[i] == g.list[i] && (g' == Joined(g1, a, i) || g' == Inserted(g1, a, i))
    requires forall b :: b in h.size && b != a && b != g.list[i] ==> b in h'.size && h'.size[b] == h.size[b]
    ensures Undisturbed(h, g, h', g', g.live - {a})
  {
    ListFacts(h, g, i);
    if i + 1 < |g.list| {
      ListFacts(h, g, i + 1);
    }
  }
}
