/** Files over blocks: allocation, reading, writing and truncating. */
module FileSystem {
  import opened Blocks
  import opened FsSpace
  import opened FsSteps
  import opened FsTree
  import LogCrash
  import opened Options
  import opened Sets

  /** The bitmap block that holds the bit of block `b`. */
  function BitmapAt(l: Layout, b: nat): nat {
    l.bmapstart + b / BITMAP_BITS
  }

  function InodeBlockAt(l: Layout, n: nat): nat {
    l.inodestart + n / INODES_PER_BLOCK
  }

  ghost function ChainSet(f: Fs, n: nat): set<nat>
    requires n < |f.inodes|
  {
    if f.inodes[n].chain != 0 then {f.inodes[n].chain} else {}
  }

  /** Whatever differs in a block of data, a block of the bitmap or a block of inodes has been logged. */
  ghost predicate Recorded(f: Fs, g: Fs, l: Layout, logged: set<nat>) {
    && |g.bits| == |f.bits| && |g.disk| == |f.disk| && (forall b :: b in f.data ==> b in g.data)
    && (forall b :: b in g.data ==> (b in f.data && g.data[b] == f.data[b]) || b in logged)
    && (forall b :: 0 <= b < |f.bits| ==> g.bits[b] == f.bits[b] || BitmapAt(l, b) in logged)
    && (forall n :: 0 <= n < |f.disk| ==> g.disk[n] == f.disk[n] || InodeBlockAt(l, n) in logged)
  }

  /** Blocks are only taken, and the ones that are referred to anew were free. */
  ghost predicate Drawn(f: Fs, g: Fs) {
    && |g.bits| == |f.bits| && (forall b :: 0 <= b < |f.bits| && f.bits[b] ==> g.bits[b])
    && forall p: Ref ::
      At(g, g.inodes, p) == At(f, f.inodes, p) || (At(g, g.inodes, p) < |f.bits| && !f.bits[At(g, g.inodes, p)])
  }

  ghost predicate Accounted(f: Fs, g: Fs, l: Layout, before: set<nat>, logged: set<nat>) {
    before <= logged && Recorded(f, g, l, logged) && Drawn(f, g)
  }

  lemma {:induction false} AccountedRefl(f: Fs, l: Layout, logged: set<nat>)
    ensures Accounted(f, f, l, logged, logged)
  {
    hide At;
  }

  lemma {:induction false} AccountedTrans(f: Fs, g: Fs, h: Fs, l: Layout, a: set<nat>, b: set<nat>, c: set<nat>)
    requires Accounted(f, g, l, a, b) && Accounted(g, h, l, b, c)
    ensures Accounted(f, h, l, a, c)
  {
    hide At, BitmapAt, InodeBlockAt;
    forall p: Ref
      ensures At(h, h.inodes, p) == At(f, f.inodes, p)
        || (At(h, h.inodes, p) < |f.bits| && !f.bits[At(h, h.inodes, p)]) {
      assert At(g, g.inodes, p) == At(f, f.inodes, p) || (At(g, g.inodes, p) < |f.bits| && !f.bits[At(g, g.inodes, p)]);
    }
  }

  lemma {:induction false} MarkAccounted(f: Fs, l: Layout, refs: Refs, b: nat, logged: set<nat>)
    requires FsInv(f, l, refs) && b < l.size && b < |f.bits| && !f.bits[b]
    ensures Accounted(f, MarkUsed(f, b), l, logged, logged + {BitmapAt(l, b), b})
  {
    hide At, BitmapAt, InodeBlockAt;
    var g := MarkUsed(f, b);
    MarkUsedInv(f, l, refs, b);
    forall p: Ref ensures At(g, g.inodes, p) == At(f, f.inodes, p) {
      MarkUsedAt(f, l, refs, b, p);
    }
  }

  /** A block that was free when the operation began is noted at a place. */
  lemma {:induction false} StoreAccounted(f: Fs, g: Fs, l: Layout, refs: Refs, r: Ref, b: Word, before: set<nat>,
      logged: set<nat>)
    requires CanStore(g, l, refs, r, b) && Accounted(f, g, l, before, logged) && b < |f.bits| && !f.bits[b]
    ensures Accounted(f, Store(g, r, b), l, before, logged + if r.Indirect? then {g.inodes[r.n].chain} else {})
  {
    hide At, BitmapAt, InodeBlockAt, FsInv;
    assert Owned(g, l, refs) && (r.Chain? ==> g.inodes[r.n].chain == 0) by { InvOwned(g, l, refs); ChainAt(g, r); }
    var h := Store(g, r, b);
    forall p: Ref ensures At(h, h.inodes, p) == if p == r then b else At(g, g.inodes, p) {
      StoreAt(g, l, refs, r, b, p);
    }
  }

  lemma {:induction false} InvOwned(f: Fs, l: Layout, refs: Refs)
    requires FsInv(f, l, refs)
    ensures Owned(f, l, refs)
  {
  }

  /** A write of file data. */
  lemma {:induction false} WriteAccounted(f: Fs, g: Fs, l: Layout, refs: Refs, n: nat, k: nat, v: Block,
      before: set<nat>, logged: set<nat>)
    requires FsInv(g, l, refs) && At(g, g.inodes, Place(n, k)) != 0 && Accounted(f, g, l, before, logged)
    ensures var b := At(g, g.inodes, Place(n, k));
            Accounted(f, g.(data := g.data[b := v]), l, before, logged + {b})
  {
    hide At, BitmapAt, InodeBlockAt, FsInv;
    var b := At(g, g.inodes, Place(n, k));
    var h := g.(data := g.data[b := v]);
    assert Owned(g, l, refs) by { InvOwned(g, l, refs); }
    assert b in refs && refs[b] == Place(n, k);
    forall p: Ref ensures At(h, h.inodes, p) == At(g, g.inodes, p) {
      ScribbleAt(g, l, refs, b, v, p);
    }
  }

  lemma {:induction false} ResizeAccounted(f: Fs, g: Fs, l: Layout, n: nat, size: nat, before: set<nat>,
      logged: set<nat>)
    requires Accounted(f, g, l, before, logged) && n < |g.inodes| && n < |g.disk|
    ensures Accounted(f, Resize(g, n, size), l, before, logged + {InodeBlockAt(l, n)})
  {
    hide At, BitmapAt, InodeBlockAt;
    var h := Resize(g, n, size);
    forall p: Ref ensures At(h, h.inodes, p) == At(g, g.inodes, p) {
      ResizeAt(g, n, size, p);
    }
  }

  lemma {:induction false} FreeKept(f: Fs, b: nat)
    requires b < |f.bits| && f.bits[b]
    ensures Kept(f, MarkFree(f, b)) && Clear(MarkFree(f, b).bits, |f.bits|) == Clear(f.bits, |f.bits|) + 1
  {
    hide At;
    var g := MarkFree(f, b);
    assert g.bits[b := true] == f.bits;
    ClearMark(g.bits, |g.bits|, b);
    forall p: Ref ensures At(g, g.inodes, p) == At(f, f.inodes, p) {
      SameData(f, g, p);
    }
  }

  /** How many bytes of a file of `size` bytes lie in the slice of `count` bytes from `offset` on. */
  function Clipped(size: nat, offset: nat, count: nat): nat {
    if offset > size then 0 else if offset + count > size then size - offset else count
  }

  /** The first `k` blocks of the bitmap. */
  ghost function BitmapBlocks(l: Layout, k: nat): set<nat> {
    if k == 0 then {} else BitmapBlocks(l, k - 1) + {l.bmapstart + (k - 1)}
  }

  lemma {:induction false} InBitmapBlocks(l: Layout, k: nat, j: nat)
    requires j < k
    ensures l.bmapstart + j in BitmapBlocks(l, k)
  {
    if j < k - 1 {
      InBitmapBlocks(l, k - 1, j);
    }
  }

  lemma {:induction false} CountBitmapBlocks(l: Layout, k: nat)
    ensures |BitmapBlocks(l, k)| <= k
  {
    if k > 0 {
      CountBitmapBlocks(l, k - 1);
    }
  }

  /** Every bit that differs is in a block that has been logged, and nothing else has been logged. */
  ghost predicate Unmarked(f: Fs, bits: seq<bool>, l: Layout, before: set<nat>, logged: set<nat>) {
    && |bits| == |f.bits| && logged <= before + BitmapBlocks(l, |bits| / BITMAP_BITS)
    && forall b :: 0 <= b < |bits| ==> bits[b] == f.bits[b] || BitmapAt(l, b) in logged
  }

  lemma {:induction false} UnmarkedStart(f: Fs, l: Layout, logged: set<nat>)
    ensures Unmarked(f, f.bits, l, logged, logged)
  {
  }

  lemma {:induction false} UnmarkedStep(f: Fs, bits: seq<bool>, l: Layout, before: set<nat>, logged: set<nat>, b: nat)
    requires Unmarked(f, bits, l, before, logged) && b < |bits| && |f.bits| % BITMAP_BITS == 0
    ensures Unmarked(f, bits[b := false], l, before, logged + {BitmapAt(l, b)})
  {
    InBitmapBlocks(l, |bits| / BITMAP_BITS, b / BITMAP_BITS);
  }

  lemma {:induction false} UnmarkedRecorded(f: Fs, g: Fs, l: Layout, n: nat, before: set<nat>, logged: set<nat>)
    requires Unmarked(f, g.bits, l, before, logged) && n < |f.disk|
    requires g.data == f.data && g.disk == f.disk[n := EmptyInode()]
    ensures Recorded(f, g, l, logged + {InodeBlockAt(l, n)})
    ensures before == {} && |f.bits| < 10 * BITMAP_BITS ==> |logged + {InodeBlockAt(l, n)}| <= LogCrash.MAXOPBLOCKS
  {
    var k := |f.bits| / BITMAP_BITS;
    if before == {} {
      CountBitmapBlocks(l, k);
      SubsetSize(logged, BitmapBlocks(l, k));
    }
  }

  class FileSystem {
    const l: Layout
    var f: Fs
    /** The place that refers to each block in use. */
    ghost var refs: Refs
    /** The blocks logged by the operation under way. */
    ghost var logged: set<nat>

    ghost predicate Valid()
      reads this
    {
      && FsInv(f, l, refs) && l.size < 0x1_0000_0000
      && |f.bits| % BITMAP_BITS == 0 && |f.bits| < l.size + BITMAP_BITS
    }

    ghost predicate Full()
      reads this
    {
      forall b :: 0 <= b < l.size && b < |f.bits| ==> f.bits[b]
    }

    lemma {:induction false} FullClear()
      requires Full() && l.size <= |f.bits|
      ensures Clear(f.bits, l.size) == 0
    {
      ClearZero(f.bits, l.size);
    }

    constructor (l: Layout, f: Fs, ghost refs: Refs)
      requires FsInv(f, l, refs) && l.size < 0x1_0000_0000 && |f.bits| % BITMAP_BITS == 0
        && |f.bits| < l.size + BITMAP_BITS
      ensures Valid() && this.l == l && this.f == f && this.refs == refs && logged == {}
    {
      this.l, this.f := l, f;
      this.refs, this.logged := refs, {};
    }

    /** `Bitmap::allocate` in the bitmap block that starts with bit `bi`, without the marking. */
    method LowestClear(bi: nat) returns (r: Option<nat>)
      requires bi + BITMAP_BITS <= |f.bits|
      ensures r.None? <==> forall i :: bi <= i < bi + BITMAP_BITS ==> f.bits[i]
      ensures r.Some? ==> r.value < BITMAP_BITS && !f.bits[bi + r.value] && forall i :: bi <= i < bi + r.value ==>
        f.bits[i]
    {
      for index := 0 to BITMAP_BITS
        invariant forall i :: bi <= i < bi + index ==> f.bits[i]
      {
        if !f.bits[bi + index] {
          return Some(index);
        }
      }
      return None;
    }

    /** `allocate_block`: the lowest free block, marked and zeroed; fails exactly when there is none. */
    method AllocateBlock() returns (r: Option<Word>)
      requires Valid()
      modifies this
      ensures Valid() && Kept(old(f), f) && refs == old(refs)
      ensures r.None? <==> old(Full())
      ensures r.None? ==> f == old(f) && logged == old(logged)
      ensures r.Some? ==>
        && r.value < l.size && !old(f.bits)[r.value] && (forall b :: 0 <= b < r.value ==> old(f.bits)[b])
        && f == MarkUsed(old(f), r.value) && r.value !in refs && l.nmeta <= r.value
        && logged == old(logged) + {BitmapAt(l, r.value), r.value}
      ensures Accounted(old(f), f, l, old(logged), logged)
    {
      hide FsInv, Kept, Accounted;
      BitsLong(f, l, refs);
      KeptRefl(f);
      AccountedRefl(f, l, logged);
      var bi := 0;
      while bi < l.size
        invariant bi % BITMAP_BITS == 0 && f == old(f) && refs == old(refs) && logged == old(logged)
        invariant forall b :: 0 <= b < bi && b < l.size ==> f.bits[b]
      {
        var found := LowestClear(bi);
        if found.Some? {
          var b := bi + found.value;
          if b < l.size {
            MarkUsedInv(f, l, refs, b);
            MarkAccounted(f, l, refs, b, logged);
            f := MarkUsed(f, b);
            logged := logged + {BitmapAt(l, b), b};
            return Some(b);
          } else {
            return None;
          }
        }
        bi := bi + BITMAP_BITS;
      }
      return None;
    }

    /** Allocates a block and notes it at an empty place; a change of the indirect block is logged. */
    method AllocateAt(r: Ref) returns (b: Option<Word>, ghost maps: set<nat>)
      requires Valid() && IsPlace(f, r) && At(f, f.inodes, r) == 0
      modifies this
      ensures Valid() && Kept(old(f), f) && |maps| <= 1
      ensures b.None? ==> Full() && f == old(f) && refs == old(refs) && logged == old(logged) && maps == {}
      ensures b.Some? ==>
        && b.value != 0 && At(f, f.inodes, r) == b.value && b.value in f.data && f.data[b.value] == ZeroBlock()
        && logged == old(logged) + maps + {b.value} + (if r.Indirect? then {f.inodes[r.n].chain} else {})
        && SameInodes(old(f), f, r) && Noted(old(f), f, l.size, r, b.value)
      ensures Accounted(old(f), f, l, old(logged), logged)
    {
      hide FsInv, Kept, At, Store, Accounted, CanStore, SameInodes, BitmapAt, ZeroBlock, Noted, IsPlace, Storable,
        MarkUsed;
      BitsLong(f, l, refs);
      maps := {};
      b := AllocateBlock();
      if b.None? {
        return;
      }
      maps := {BitmapAt(l, b.value)};
      assert logged == old(logged) + maps + {b.value};
      StoredAnew(old(f), l, refs, r, b.value, old(logged));
      f := Store(f, r, b.value);
      refs := refs[b.value := r];
      if r.Indirect? {
        logged := logged + {f.inodes[r.n].chain};
      } else {
        assert logged == old(logged) + maps + {b.value} + {};
      }
    }

    /** `offset_to_block`: the block of a file for an offset, allocated if it is missing.  Files stay as they are. */
    method OffsetToBlock(n: nat, offset: nat) returns (r: Option<nat>, ghost maps: set<nat>)
      requires Valid() && n < |f.inodes|
      modifies this
      ensures Valid() && Kept(old(f), f)
      ensures old(BlockOf(f, n, offset)) != 0 ==>
        r == Some(old(BlockOf(f, n, offset))) && f == old(f) && refs == old(refs) && logged == old(logged) && maps == {}
      ensures r.Some? ==> r.value != 0 && r.value == BlockOf(f, n, offset) && r.value in f.data
      ensures r.Some? && old(BlockOf(f, n, offset)) == 0 ==> f.data[r.value] == ZeroBlock()
      ensures r.None? ==> offset >= MAXFILE * BSIZE || Full()
      ensures logged <= old(logged) + maps + ChainSet(f, n) + (if r.Some? then {r.value} else {})
      ensures |maps| <= 1 + (if f.inodes[n].chain != old(f).inodes[n].chain then 1 else 0)
      ensures old(f).inodes[n].chain != 0 ==> f.inodes[n].chain == old(f).inodes[n].chain
      ensures Accounted(old(f), f, l, old(logged), logged) && Charged(old(f), f, l.size, n, offset / BSIZE)
      ensures r.None? ==> BlockOf(f, n, offset) == 0
    {
      hide FsInv, Kept, At, Accounted, Charged, Noted;
      Shapes(f, l, refs, n);
      BitsLong(f, l, refs);
      KeptRefl(f);
      AccountedRefl(f, l, logged);
      ChargedRefl(f, l.size, n, offset / BSIZE);
      var index := offset / BSIZE;
      maps := {};
      if index < NDIRECT {
        PlaceAt(f, l, refs, n, index);
        if f.inodes[n].addrs[index] == 0 {
          r, maps := AllocateAt(Direct(n, index));
          if r.Some? {
            NotedCharged(old(f), f, l.size, n, index, Direct(n, index), r.value);
          }
        } else {
          r := Some(f.inodes[n].addrs[index]);
        }
        return;
      }
      if index < MAXFILE {
        r, maps := ChainedBlock(n, index - NDIRECT);
        return;
      }
      NoPlace(f, n, index);
      return None, {};
    }

    method ChainedBlock(n: nat, i: nat) returns (r: Option<nat>, ghost maps: set<nat>)
      requires Valid() && n < |f.inodes| && i < NINDIRECT
      modifies this
      ensures Valid() && Kept(old(f), f)
      ensures old(At(f, f.inodes, Indirect(n, i))) != 0 ==>
        r == Some(old(At(f, f.inodes, Indirect(n, i)))) && f == old(f) && refs == old(refs) && logged == old(logged)
            && maps == {}
      ensures r.Some? ==> r.value != 0 && r.value == At(f, f.inodes, Indirect(n, i)) && r.value in f.data
      ensures r.Some? && old(At(f, f.inodes, Indirect(n, i))) == 0 ==> f.data[r.value] == ZeroBlock()
      ensures r.None? ==> Full()
      ensures logged <= old(logged) + maps + ChainSet(f, n) + (if r.Some? then {r.value} else {})
      ensures |maps| <= 1 + (if f.inodes[n].chain != old(f).inodes[n].chain then 1 else 0)
      ensures old(f).inodes[n].chain != 0 ==> f.inodes[n].chain == old(f).inodes[n].chain
      ensures Accounted(old(f), f, l, old(logged), logged) && Charged(old(f), f, l.size, n, NDIRECT + i)
      ensures r.None? ==> At(f, f.inodes, Indirect(n, i)) == 0
    {
      hide FsInv, Kept, At, Full, Accounted, Charged, Noted, WordAt, ZeroBlock, IsPlace;
      Shapes(f, l, refs, n);
      BitsLong(f, l, refs);
      KeptRefl(f);
      AccountedRefl(f, l, logged);
      ChargedRefl(f, l.size, n, NDIRECT + i);
      maps := {};
      ghost var was := f;
      ChainPlace(f, l, refs, n, i);
      if f.inodes[n].chain == 0 {
        var c;
        c, maps := AllocateAt(Chain(n));
        if c.None? {
          return None, maps;
        }
        NotedCharged(was, f, l.size, n, NDIRECT + i, Chain(n), c.value);
        ChainPlace(f, l, refs, n, i);
        ZeroWord(i);
      }
      ghost var g, first, before := f, maps, logged;
      var a := WordAt(f.data[f.inodes[n].chain], i);
      if a == 0 {
        ghost var more;
        r, more := AllocateAt(Indirect(n, i));
        KeptTrans(was, g, f);
        AccountedTrans(was, g, f, l, old(logged), before, logged);
        if r.Some? {
          NotedCharged(g, f, l.size, n, NDIRECT + i, Indirect(n, i), r.value);
          ChargedTrans(was, g, f, l.size, n, NDIRECT + i);
        }
        UnionSize(first, more);
        maps := first + more;
      } else {
        r := Some(a);
        PlaceInData(f, l, refs, Indirect(n, i));
      }
    }

    /** A turn of the loop of `copy_from`: finds the block and, if the bytes can be had, writes and logs it. */
    method WriteChunk(n: nat, at: nat, chunk: seq<Byte>, readable: bool)
        returns (found: bool, ghost b: nat, ghost maps: set<nat>)
      requires Valid() && n < |f.inodes| && 0 < |chunk| && at % BSIZE + |chunk| <= BSIZE
      modifies this
      ensures Valid() && |f.inodes| == |old(f).inodes|
      ensures !found ==> at >= MAXFILE * BSIZE || Full()
      ensures Spliced(old(f), f, n, at, chunk, if found && readable then |chunk| else 0)
      ensures logged <= old(logged) + maps + ChainSet(f, n) + (if found then {b} else {})
      ensures Priced(old(f), f, n, at, maps)
      ensures Accounted(old(f), f, l, old(logged), logged) && Charged(old(f), f, l.size, n, at / BSIZE)
      ensures found <==> BlockOf(f, n, at) != 0
    {
      hide FsInv, Kept, At, BlockOf, ByteAt, Accounted, Charged;
      var block;
      block, maps := OffsetToBlock(n, at);
      found := block.Some?;
      b := if found then block.value else 0;
      if found && readable {
        var i := at % BSIZE;
        var v := f.data[block.value].bytes;
        var w := RawBlock(v[..i] + chunk + v[i + |chunk|..]);
        ghost var g := f;
        BlockOfAt(f, n, at);
        WriteInv(f, l, refs, n, at / BSIZE, w);
        WriteCharged(old(f), f, l, refs, n, at / BSIZE, w);
        WriteAccounted(old(f), f, l, refs, n, at / BSIZE, w, old(logged), logged);
        f := f.(data := f.data[block.value := w]);
        logged := logged + {block.value};
        ChunkSpliced(old(f), g, l, refs, n, at, chunk, w);
        InvOwned(g, l, refs);
        WriteByte(g, l, refs, n, at / BSIZE, w, n, at);
      } else {
        NothingSpliced(old(f), f, n, at, chunk);
      }
    }

    /** A turn of the loop of `copy_from`, with its account. */
    method CopyChunk(n: nat, src: seq<Byte>, offset: nat, done: nat, len: nat, copied: bool,
                     ghost was: Fs, ghost refsWas: Refs, ghost base: set<nat>, ghost cost: Cost)
      returns (found: bool, ghost cost': Cost)
      requires Valid() && n < |f.inodes| == |was.inodes| && done < |src| && FsInv(was, l, refsWas)
        && offset <= was.inodes[n].size
      requires len == ChunkSize(offset, done, |src|)
      requires Spliced(was, f, n, offset, src, done) && (done == 0 ==> f == was)
      requires cost.chunks * BSIZE == if done == 0 then 0 else offset % BSIZE + done
      requires Affords(was, f, base, logged, n, offset, |src|, cost) && Accounted(was, f, l, base, logged)
      modifies this
      ensures Valid() && |f.inodes| == |was.inodes|
      ensures !found ==> offset + done >= MAXFILE * BSIZE || Full()
      ensures Spliced(was, f, n, offset, src, if found && copied then done + len else done)
      ensures Affords(was, f, base, logged, n, offset, |src|, cost') && cost'.chunks == cost.chunks + 1
      ensures Accounted(was, f, l, base, logged) && Charged(old(f), f, l.size, n, (offset + done) / BSIZE)
      ensures found <==> BlockOf(f, n, offset + done) != 0
    {
      hide FsInv, Spliced, Priced, Affords, Full, BlockOf, Accounted, Charged;
      NextChunk(offset, done, |src|);
      ghost var g, before := f, logged;
      ghost var b, maps;
      var at := offset + done;
      found, b, maps := WriteChunk(n, at, src[done..done + len], copied);
      ghost var more := if found then {b} else {};
      if done == 0 && offset % BSIZE != 0 {
        FirstBlock(was, l, refsWas, n, offset);
      }
      AffordsStep(was, g, f, base, before, logged, n, offset, |src|, at, cost, more, maps);
      AccountedTrans(was, g, f, l, base, before, logged);
      cost' := Add(cost, g, n, at, more, maps);
      SplicedChunk(was, g, f, n, offset, src, done, len, found && copied);
    }

    /** The end of `copy_from`: the new size, and the inode in its block. */
    method FinishCopy(n: nat, src: seq<Byte>, offset: nat, done: nat, ghost was: Fs, ghost refsWas: Refs,
        ghost base: set<nat>)
      requires Valid() && n < |f.inodes| == |was.inodes| && FsInv(was, l, refsWas) && offset <= was.inodes[n].size
      requires Spliced(was, f, n, offset, src, done) && offset + done <= MAXFILE * BSIZE
      requires Accounted(was, f, l, base, logged)
      modifies this
      ensures Valid() && |f.inodes| == |was.inodes|
      ensures logged == old(logged) + {InodeBlockAt(l, n)} && Extended(was, f, n, offset, src, done)
      ensures Accounted(was, f, l, base, logged)
    {
      hide FsInv, Spliced, Extended, Accounted;
      Shapes(f, l, refs, n);
      var size := if f.inodes[n].size < offset + done then offset + done else f.inodes[n].size;
      SplicedSize(was, f, l, refsWas, refs, n, offset, src, done, size);
      ResizeAccounted(was, f, l, n, size, base, logged);
      f := Resize(f, n, size);
      logged := logged + {InodeBlockAt(l, n)};
    }

    /** `copy_from`: writes `src` at `offset`, as far as it can be read from the caller.  What has been written is in
        the file; on success its size covers it and the inode is on disk.  Nothing else changes in any file.  It fails
        exactly if the range is not allowed or fewer blocks are free than the range lacks.  What has changed has been
        logged, and an operation of at most three blocks of bytes logs at most ten blocks. */
    method CopyFrom(n: nat, src: seq<Byte>, offset: nat, readable: nat) returns (r: Option<nat>, ghost wrote: nat)
      requires Valid() && n < |f.inodes|
      modifies this
      ensures Valid() && |f.inodes| == |old(f).inodes|
      ensures r.None? ==> Spliced(old(f), f, n, offset, src, wrote)
      ensures offset > old(f).inodes[n].size || offset + |src| > MAXFILE * BSIZE ==>
        r.None? && f == old(f) && wrote == 0
      ensures offset <= old(f).inodes[n].size && offset + |src| <= MAXFILE * BSIZE && readable >= |src| ==>
        (r.Some? <==> Clear(old(f).bits, l.size) >= Need(old(f), n, offset / BSIZE, Last(offset, |src|)))
      ensures r.None? && offset <= old(f).inodes[n].size && offset + |src| <= MAXFILE * BSIZE ==>
        Full() && Clear(old(f).bits, l.size) < Need(old(f), n, offset / BSIZE, Last(offset, |src|))
      ensures r.Some? ==>
        && r.value == wrote <= |src| && (readable >= |src| ==> wrote == |src|)
        && Extended(old(f), f, n, offset, src, wrote)
      ensures old(logged) == {} && |src| <= 3 * BSIZE ==> |logged| <= LogCrash.MAXOPBLOCKS
      ensures Accounted(old(f), f, l, old(logged), logged)
    {
      hide FsInv, Spliced, Kept, Affords, Full, Extended, Accounted, Charged, Need, Clear, Reach, Last, ChunkSize,
        InodeBlockAt;
      wrote := 0;
      ReachEnds(offset, |src|);
      BitsLong(f, l, refs);
      ghost var m := Last(offset, |src|);
      ghost var spare := Clear(f.bits, l.size) - Need(f, n, offset / BSIZE, m);
      KeptRefl(f);
      AccountedRefl(f, l, logged);
      NothingSpliced(f, f, n, offset, src);
      ghost var cost := Cost({}, {}, 0, 0);
      AffordsStart(f, logged, n, offset, |src|);
      AffordsTen(f, f, logged, logged, n, offset, |src|, cost, {});
      if offset > f.inodes[n].size || offset + |src| > MAXFILE * BSIZE {
        return None, 0;
      }
      var done := 0;
      while done < |src|
        invariant Valid() && |f.inodes| == |old(f).inodes| && done <= |src|
        invariant Spliced(old(f), f, n, offset, src, done)
        invariant done < |src| ==> cost.chunks * BSIZE == if done == 0 then 0 else offset % BSIZE + done
        invariant done == 0 ==> f == old(f)
        invariant Affords(old(f), f, old(logged), logged, n, offset, |src|, cost)
          && Accounted(old(f), f, l, old(logged), logged)
        invariant l.size <= |f.bits| && Clear(f.bits, l.size) - Need(f, n, Reach(offset, done, |src|), m) == spare
        decreases |src| - done
      {
        var len := ChunkSize(offset, done, |src|);
        NextChunk(offset, done, |src|);
        var copied := done + len <= readable;
        var found;
        ghost var g := f;
        found, cost := CopyChunk(n, src, offset, done, len, copied, old(f), old(refs), old(logged), cost);
        BitsLong(f, l, refs);
        ReachNext(offset, done, |src|, len);
        NeedStep(g, f, l.size, n, (offset + done) / BSIZE, m);
        if !found {
          FullClear();
          AffordsTen(old(f), f, old(logged), logged, n, offset, |src|, cost, {});
          return None, done;
        }
        if !copied {
          break;
        }
        done := done + len;
      }
      AffordsTen(old(f), f, old(logged), logged, n, offset, |src|, cost, {InodeBlockAt(l, n)});
      assert done == |src| ==> spare >= 0 by { NeedNothing(f, n, m); }
      FinishCopy(n, src, offset, done, old(f), old(refs), old(logged));
      return Some(done), done;
    }

    /** `copy_to`: the requested slice, clipped to the size of the file; nothing changes.  The first `writable` bytes of
        the destination can be written to: the copy fails exactly if the slice is longer, and has then copied whole chunks
        of it in front. */
    method CopyTo(n: nat, offset: nat, count: nat, writable: nat) returns (ok: bool, bytes: seq<Byte>)
      requires Valid() && n < |f.inodes|
      modifies this
      ensures f == old(f) && refs == old(refs) && logged == old(logged)
      ensures ok <==> Clipped(f.inodes[n].size, offset, count) <= writable
      ensures ok ==> |bytes| == Clipped(f.inodes[n].size, offset, count)
      ensures !ok ==> |bytes| <= writable && |bytes| < Clipped(f.inodes[n].size, offset, count)
      ensures forall i :: 0 <= i < |bytes| ==> bytes[i] == ByteAt(f, n, offset + i)
    {
      hide FsInv, Kept, Full, ByteAt, BlockOf;
      if offset > f.inodes[n].size {
        return true, [];
      }
      var size := if offset + count > f.inodes[n].size then f.inodes[n].size - offset else count;
      bytes := [];
      while |bytes| < size
        invariant |bytes| <= size && |bytes| <= writable && f == old(f) && refs == old(refs) && logged == old(logged)
        invariant forall i :: 0 <= i < |bytes| ==> bytes[i] == ByteAt(f, n, offset + i)
        decreases size - |bytes|
      {
        var at := offset + |bytes|;
        var len := ChunkSize(offset, |bytes|, size);
        NextChunk(offset, |bytes|, size);
        SizeBlock(f, l, refs, n, at);
        var block;
        ghost var maps;
        block, maps := OffsetToBlock(n, at);
        var src := f.data[block.value].bytes[at % BSIZE..at % BSIZE + len];
        if |bytes| + len > writable {
          return false, bytes;
        }
        forall i | 0 <= i < len ensures src[i] == ByteAt(f, n, at + i) {
          InBlock(at, at + i, len);
          OwnByte(f, n, at + i, at);
        }
        ghost var before := bytes;
        bytes := bytes + src;
        forall i | 0 <= i < |bytes| ensures bytes[i] == ByteAt(f, n, offset + i) {
          if i >= |before| {
            assert at + (i - |before|) == offset + i;
          }
        }
      }
      ok := true;
    }

    /** `deallocate_block`; its `unwrap` holds if the bit is set.  One more block is free, no byte of any file has
        changed, and what has changed has been logged. */
    method FreeBlock(b: nat)
      requires b < |f.bits| && f.bits[b]
      modifies this`f, this`logged
      ensures f == MarkFree(old(f), b) && logged == old(logged) + {BitmapAt(l, b)}
      ensures Clear(f.bits, |f.bits|) == Clear(old(f).bits, |old(f).bits|) + 1
      ensures Kept(old(f), f) && Recorded(old(f), f, l, logged)
    {
      hide Kept, Clear;
      FreeKept(f, b);
      f := MarkFree(f, b);
      logged := logged + {BitmapAt(l, b)};
    }

    /** `truncate`: frees exactly the blocks of the file, each once, and empties it in memory and on disk.  What has
        changed has been logged: the inode and blocks of the bitmap, at most ten in all if the bitmap has fewer than
        ten. */
    method Truncate(n: nat)
      requires Valid() && n < |f.inodes|
      modifies this
      ensures Valid() && Truncated(old(f), f, old(refs), n) && refs == Without(old(refs), n)
      ensures forall m: nat, o: nat :: m != n ==> ByteAt(f, m, o) == ByteAt(old(f), m, o)
      ensures Recorded(old(f), f, l, logged)
      ensures old(logged) == {} && |f.bits| < 10 * BITMAP_BITS ==> |logged| <= LogCrash.MAXOPBLOCKS
    {
      hide FsInv, At, ByteAt, BlockOf, Freed, Unmarked;
      Shapes(f, l, refs, n);
      ghost var was := f;
      FreedStart(f, l, refs, n);
      UnmarkedStart(f, l, logged);
      for d := 0 to NDIRECT
        invariant f == was.(bits := f.bits) && refs == old(refs) && Freed(was, f.bits, refs, n, d, 0, false)
        invariant Unmarked(was, f.bits, l, old(logged), logged)
      {
        var addr := f.inodes[n].addrs[d];
        FreedDirect(was, f.bits, l, refs, n, d);
        if addr != 0 {
          UnmarkedStep(was, f.bits, l, old(logged), logged, addr);
          FreeBlock(addr);
        }
      }
      if f.inodes[n].chain != 0 {
        var chain := f.inodes[n].chain;
        var words := f.data[chain];
        for i := 0 to NINDIRECT
          invariant f == was.(bits := f.bits) && refs == old(refs) && Freed(was, f.bits, refs, n, NDIRECT, i, false)
          invariant Unmarked(was, f.bits, l, old(logged), logged)
        {
          var addr := WordAt(words, i);
          FreedIndirect(was, f.bits, l, refs, n, i);
          if addr != 0 {
            UnmarkedStep(was, f.bits, l, old(logged), logged, addr);
            FreeBlock(addr);
          }
        }
        FreedChain(was, f.bits, l, refs, n);
        UnmarkedStep(was, f.bits, l, old(logged), logged, chain);
        FreeBlock(chain);
      } else {
        FreedNoChain(was, f.bits, l, refs, n);
      }
      FreedAll(was, f.bits, l, refs, n);
      f := f.(inodes := f.inodes[n := EmptyInode()], disk := f.disk[n := EmptyInode()]);
      UnmarkedRecorded(was, f, l, n, old(logged), logged);
      logged := logged + {InodeBlockAt(l, n)};
      TruncatedInv(was, f, l, refs, n);
      refs := Without(refs, n);
    }

    /** The cached inode goes without an `update`; the next user finds what is on disk. */
    method EvictInode(n: nat)
      requires Valid() && n < |f.inodes|
      modifies this`f, this`refs
      ensures Valid() && f == Evict(old(f), n)
      ensures forall m: nat, o: nat :: m < |f.inodes| && o < old(f).inodes[m].size ==>
        ByteAt(f, m, o) == ByteAt(old(f), m, o)
    {
      hide FsInv, ByteAt;
      Shapes(f, l, refs, n);
      EvictInv(f, l, refs, n);
      refs := Remaining(f, refs, n);
      f := Evict(f, n);
    }

    /** The loop of `File::write`, each turn of it one operation of the log of at most ten blocks.  If it succeeds, all
        the bytes are in the file.  If it fails, a prefix of them is; the file's size and the new offset count a part of
        that prefix, and it fails for want of readable bytes, of room in the file or of free blocks only. */
    method FileWrite(n: nat, src: seq<Byte>, offset: nat, readable: nat)
        returns (ok: bool, newOffset: nat, ghost wrote: nat)
      requires Valid() && n < |f.inodes|
      modifies this
      ensures Valid() && |f.inodes| == |old(f).inodes|
      ensures offset <= newOffset <= offset + wrote && Written(old(f), f, n, offset, src, newOffset - offset, wrote)
      ensures ok ==> newOffset == offset + |src|
      ensures !ok ==> readable < |src| || offset > old(f).inodes[n].size || offset + |src| > MAXFILE * BSIZE || Full()
    {
      hide FsInv, Extended, Spliced, Full, Written;
      var max := (LogCrash.MAXOPBLOCKS - 1 - 1 - 2) / 2 * BSIZE;
      var i := 0;
      newOffset := offset;
      WrittenStart(f, n, offset, src);
      while i < |src|
        invariant Valid() && |f.inodes| == |old(f).inodes| && i <= |src| && newOffset == offset + i
        invariant Written(old(f), f, n, offset, src, i, i)
        decreases |src| - i
      {
        var size := if |src| - i < max then |src| - i else max;
        ghost var g, was := f, refs;
        logged := {};
        var r;
        r, wrote := CopyFrom(n, src[i..i + size], newOffset, if readable < i then 0 else readable - i);
        assert |logged| <= LogCrash.MAXOPBLOCKS;
        WrittenReach(old(f), g, n, offset, src, i);
        if r.None? {
          WrittenPart(old(f), g, f, l, was, n, offset, src, i, size, wrote);
          return false, newOffset, i + wrote;
        }
        WrittenStep(old(f), g, f, n, offset, src, i, size, wrote);
        newOffset := newOffset + r.value;
        if r.value != size {
          return false, newOffset, i + r.value;
        }
        i := i + size;
      }
      ok, wrote := true, i;
    }
  }

  /** The first `k` bytes of `src` are in file `n` from `offset` on, and every other byte of every file is as before.
      Of these bytes the size of the file counts the first `c`. */
  ghost predicate Written(f: Fs, g: Fs, n: nat, offset: nat, src: seq<Byte>, c: nat, k: nat) {
    && n < |f.inodes| == |g.inodes| && c <= k <= |src|
    && g.inodes[n].size == (if c > 0 && f.inodes[n].size < offset + c then offset + c else f.inodes[n].size)
    && (forall m :: 0 <= m < |f.inodes| && m != n ==> g.inodes[m].size == f.inodes[m].size)
    && (forall o :: offset <= o < offset + k ==> ByteAt(g, n, o) == src[o - offset])
    && (forall m, o :: 0 <= m < |f.inodes| && 0 <= o < f.inodes[m].size && !(m == n && offset <= o < offset + k) ==>
      ByteAt(g, m, o) == ByteAt(f, m, o))
  }

  lemma {:induction false} WrittenStart(f: Fs, n: nat, offset: nat, src: seq<Byte>)
    requires n < |f.inodes|
    ensures Written(f, f, n, offset, src, 0, 0)
  {
    hide ByteAt;
  }

  lemma {:induction false} WrittenReach(f: Fs, g: Fs, n: nat, offset: nat, src: seq<Byte>, k: nat)
    requires Written(f, g, n, offset, src, k, k)
    ensures n < |f.inodes| && n < |g.inodes|
    ensures offset + k <= g.inodes[n].size || (k == 0 && g.inodes[n].size == f.inodes[n].size)
  {
    hide ByteAt;
  }

  /** An operation that has succeeded. */
  lemma {:induction false} WrittenStep(f: Fs, g: Fs, h: Fs, n: nat, offset: nat, src: seq<Byte>, k: nat, size: nat,
      len: nat)
    requires Written(f, g, n, offset, src, k, k) && len <= size && k + size <= |src|
    requires offset + k <= g.inodes[n].size
    requires Extended(g, h, n, offset + k, src[k..k + size], len)
    ensures Written(f, h, n, offset, src, k + len, k + len)
  {
    hide ByteAt;
    forall o | offset <= o < offset + k + len ensures ByteAt(h, n, o) == src[o - offset] {
      if o >= offset + k {
        assert src[k..k + size][o - (offset + k)] == src[o - offset];
      } else {
        assert ByteAt(h, n, o) == ByteAt(g, n, o);
      }
    }
    forall m, o | 0 <= m < |f.inodes| && 0 <= o < f.inodes[m].size && !(m == n && offset <= o < offset + k + len)
      ensures ByteAt(h, m, o) == ByteAt(f, m, o)
    {
      assert ByteAt(h, m, o) == ByteAt(g, m, o);
    }
  }

  /** An operation that has failed after `len` bytes. */
  lemma {:induction false} WrittenPart(f: Fs, g: Fs, h: Fs, l: Layout, refs: Refs, n: nat, offset: nat, src: seq<Byte>,
      k: nat, size: nat, len: nat)
    requires Written(f, g, n, offset, src, k, k) && FsInv(g, l, refs) && k + size <= |src|
    requires Spliced(g, h, n, offset + k, src[k..k + size], len)
    ensures Written(f, h, n, offset, src, k, k + len)
  {
    hide ByteAt, FsInv, BlockOf;
    forall o | offset <= o < offset + k + len ensures ByteAt(h, n, o) == src[o - offset] {
      if o >= offset + k {
        assert src[k..k + size][o - (offset + k)] == src[o - offset];
      } else {
        SizeBlock(g, l, refs, n, o);
        assert ByteAt(h, n, o) == ByteAt(g, n, o);
      }
    }
    forall m, o | 0 <= m < |f.inodes| && 0 <= o < f.inodes[m].size && !(m == n && offset <= o < offset + k + len)
      ensures ByteAt(h, m, o) == ByteAt(f, m, o)
    {
      SizeBlock(g, l, refs, m, o);
      assert ByteAt(h, m, o) == ByteAt(g, m, o);
    }
  }

  lemma {:induction false} SizeBlock(f: Fs, l: Layout, refs: Refs, n: nat, o: nat)
    requires FsInv(f, l, refs) && n < |f.inodes| && o < f.inodes[n].size
    ensures BlockOf(f, n, o) != 0
  {
    hide Owned, Shadow, At;
    BelowSize(f, n, o);
  }

  /** The bits after the first `d` direct and `i` indirect blocks of a file, and perhaps its indirect block, are
      freed. */
  ghost predicate Gone(refs: Refs, b: nat, n: nat, d: nat, i: nat, chain: bool) {
    && b in refs
    && match refs[b]
       case Direct(m, k) => m == n && k < d
       case Indirect(m, k) => m == n && k < i
       case Chain(m) => m == n && chain
  }

  ghost predicate Freed(f: Fs, bits: seq<bool>, refs: Refs, n: nat, d: nat, i: nat, chain: bool) {
    |bits| == |f.bits| && forall b :: 0 <= b < |bits| ==> bits[b] == (f.bits[b] && !Gone(refs, b, n, d, i, chain))
  }

  lemma {:induction false} FreedStart(f: Fs, l: Layout, refs: Refs, n: nat)
    ensures Freed(f, f.bits, refs, n, 0, 0, false)
  {
  }

  /** The block at a place that has not been visited is still marked; freeing it, or finding none, completes the
      visit. */
  lemma {:induction false} FreedPlace(f: Fs, bits: seq<bool>, l: Layout, refs: Refs, n: nat, p: Ref, d: nat, i: nat,
      c: bool, d': nat, i': nat, c': bool)
    requires FsInv(f, l, refs) && Freed(f, bits, refs, n, d, i, c) && p.n == n
    requires forall b :: b in refs ==> (Gone(refs, b, n, d', i', c') <==> Gone(refs, b, n, d, i, c) || refs[b] == p)
    requires forall b :: b in refs && refs[b] == p ==> !Gone(refs, b, n, d, i, c)
    ensures var b := At(f, f.inodes, p);
            if b == 0 then Freed(f, bits, refs, n, d', i', c')
            else b < |bits| && bits[b] && Freed(f, bits[b := false], refs, n, d', i', c')
  {
    hide At, HoleFree, Shadow;
    var b := At(f, f.inodes, p);
    if b != 0 {
      assert RefOk(f, l, refs, b);
    }
    forall x | x in refs && refs[x] == p ensures x == b {
      assert RefOk(f, l, refs, x);
    }
  }

  lemma {:induction false} FreedDirect(f: Fs, bits: seq<bool>, l: Layout, refs: Refs, n: nat, d: nat)
    requires FsInv(f, l, refs) && n < |f.inodes| && d < NDIRECT && |f.inodes[n].addrs| == NDIRECT
      && Freed(f, bits, refs, n, d, 0, false)
    ensures var b := f.inodes[n].addrs[d];
            if b == 0 then Freed(f, bits, refs, n, d + 1, 0, false)
            else b < |bits| && bits[b] && Freed(f, bits[b := false], refs, n, d + 1, 0, false)
  {
    hide FsInv;
    FreedPlace(f, bits, l, refs, n, Direct(n, d), d, 0, false, d + 1, 0, false);
  }

  lemma {:induction false} FreedIndirect(f: Fs, bits: seq<bool>, l: Layout, refs: Refs, n: nat, i: nat)
    requires FsInv(f, l, refs) && n < |f.inodes| && i < NINDIRECT && f.inodes[n].chain != 0
      && Freed(f, bits, refs, n, NDIRECT, i, false)
    ensures f.inodes[n].chain in f.data
    ensures var b := WordAt(f.data[f.inodes[n].chain], i);
            if b == 0 then Freed(f, bits, refs, n, NDIRECT, i + 1, false)
            else b < |bits| && bits[b] && Freed(f, bits[b := false], refs, n, NDIRECT, i + 1, false)
  {
    hide FsInv, WordAt;
    ChainPlace(f, l, refs, n, i);
    FreedPlace(f, bits, l, refs, n, Indirect(n, i), NDIRECT, i, false, NDIRECT, i + 1, false);
  }

  lemma {:induction false} FreedChain(f: Fs, bits: seq<bool>, l: Layout, refs: Refs, n: nat)
    requires FsInv(f, l, refs) && n < |f.inodes| && f.inodes[n].chain != 0
      && Freed(f, bits, refs, n, NDIRECT, NINDIRECT, false)
    ensures var b := f.inodes[n].chain;
            b < |bits| && bits[b] && Freed(f, bits[b := false], refs, n, NDIRECT, NINDIRECT, true)
  {
    hide FsInv;
    FreedPlace(f, bits, l, refs, n, Chain(n), NDIRECT, NINDIRECT, false, NDIRECT, NINDIRECT, true);
  }

  lemma {:induction false} FreedNoChain(f: Fs, bits: seq<bool>, l: Layout, refs: Refs, n: nat)
    requires FsInv(f, l, refs) && n < |f.inodes| && f.inodes[n].chain == 0 && Freed(f, bits, refs, n, NDIRECT, 0, false)
    ensures Freed(f, bits, refs, n, NDIRECT, NINDIRECT, true)
  {
    hide HoleFree, Shadow;
    forall b | b in refs ensures Gone(refs, b, n, NDIRECT, NINDIRECT, true) <==> Gone(refs, b, n, NDIRECT, 0, false) {
      assert RefOk(f, l, refs, b);
    }
  }

  lemma {:induction false} FreedAll(f: Fs, bits: seq<bool>, l: Layout, refs: Refs, n: nat)
    requires FsInv(f, l, refs) && Freed(f, bits, refs, n, NDIRECT, NINDIRECT, true)
    ensures |bits| == |f.bits| && forall b :: 0 <= b < |bits| ==> bits[b] == (f.bits[b] && !Belongs(refs, b, n))
  {
    hide HoleFree, Shadow;
    forall b | b in refs && refs[b].n == n ensures Gone(refs, b, n, NDIRECT, NINDIRECT, true) {
      assert RefOk(f, l, refs, b);
    }
  }

  /** How much of the rest of a copy falls into the block at hand. */
  function ChunkSize(offset: nat, done: nat, size: nat): nat
    requires done <= size
  {
    if size - done < BSIZE - (offset + done) % BSIZE then size - done else BSIZE - (offset + done) % BSIZE
  }

  /** The blocks that an operation has logged: data blocks, bitmap blocks; how many blocks of the file it has visited
      and how many of them were new. */
  datatype Cost = Cost(data: set<nat>, maps: set<nat>, chunks: nat, added: nat)

  ghost function Add(c: Cost, g: Fs, n: nat, at: nat, data: set<nat>, maps: set<nat>): Cost {
    Cost(c.data + data, c.maps + maps, c.chunks + 1, c.added + if BlockOf(g, n, at) == 0 then 1 else 0)
  }

  ghost predicate Affords(f: Fs, g: Fs, base: set<nat>, logged: set<nat>, n: nat, offset: nat, size: nat, c: Cost)
    requires n < |f.inodes| && |g.inodes| == |f.inodes|
  {
    && logged <= base + c.data + c.maps + ChainSet(g, n)
    && |c.data| <= c.chunks && c.added <= c.chunks
    && |c.maps| <= c.added + (if g.inodes[n].chain != f.inodes[n].chain then 1 else 0)
    && (f.inodes[n].chain != 0 ==> g.inodes[n].chain == f.inodes[n].chain)
    && (c.chunks > 0 ==> (c.chunks - 1) * BSIZE < offset % BSIZE + size)
    && (offset % BSIZE != 0 && c.chunks > 0 ==> c.added < c.chunks)
  }

  lemma {:induction false} AffordsStart(f: Fs, logged: set<nat>, n: nat, offset: nat, size: nat)
    requires n < |f.inodes|
    ensures Affords(f, f, logged, logged, n, offset, size, Cost({}, {}, 0, 0))
  {
  }

  /** Files have no holes, so that the block of an unaligned first byte is already there. */
  lemma {:induction false} FirstBlock(f: Fs, l: Layout, refs: Refs, n: nat, offset: nat)
    requires FsInv(f, l, refs) && n < |f.inodes| && offset <= f.inodes[n].size && offset % BSIZE != 0
    ensures BlockOf(f, n, offset) != 0
  {
    hide At;
    assert HoleFree(f, f.inodes, n);
    assert offset / BSIZE * BSIZE < f.inodes[n].size;
  }

  lemma {:induction false} AffordsStep(f: Fs, g: Fs, h: Fs, base: set<nat>, before: set<nat>, logged: set<nat>,
                                       n: nat, offset: nat, size: nat, at: nat, c: Cost, data: set<nat>, maps: set<nat>)
    requires n < |f.inodes| && |h.inodes| == |g.inodes| == |f.inodes|
    requires Affords(f, g, base, before, n, offset, size, c) && Priced(g, h, n, at, maps) && |data| <= 1
    requires logged <= before + maps + ChainSet(h, n) + data
    requires c.chunks * BSIZE < offset % BSIZE + size
    requires c.chunks == 0 && offset % BSIZE != 0 ==> BlockOf(g, n, at) != 0
    ensures Affords(f, h, base, logged, n, offset, size, Add(c, g, n, at, data, maps))
  {
    hide BlockOf;
    UnionSize(c.data, data);
    UnionSize(c.maps, maps);
  }

  lemma {:induction false} AffordsTen(f: Fs, g: Fs, base: set<nat>, logged: set<nat>, n: nat, offset: nat, size: nat,
      c: Cost, more: set<nat>)
    requires n < |f.inodes| && |g.inodes| == |f.inodes| && Affords(f, g, base, logged, n, offset, size, c)
      && |more| <= 1
    ensures base == {} && size <= 3 * BSIZE ==> |logged + more| <= 10
  {
    if base == {} && size <= 3 * BSIZE {
      var rest := c.data + c.maps + ChainSet(g, n) + more;
      UnionSize(c.data, c.maps);
      UnionSize(c.data + c.maps, ChainSet(g, n));
      UnionSize(c.data + c.maps + ChainSet(g, n), more);
      assert logged + more <= rest;
      SubsetSize(logged + more, rest);
    }
  }

  lemma {:induction false} NextChunk(offset: nat, done: nat, size: nat)
    requires done < size
    ensures var len := ChunkSize(offset, done, size);
            && 0 < len && done + len <= size && (offset + done) % BSIZE + len <= BSIZE
            && (done + len < size ==> (offset + done) % BSIZE + len == BSIZE)
  {
  }

  lemma {:induction false} SplicedChunk(f: Fs, g: Fs, h: Fs, n: nat, offset: nat, src: seq<Byte>, k: nat, len: nat,
      copied: bool)
    requires Spliced(f, g, n, offset, src, k) && k + len <= |src|
    requires Spliced(g, h, n, offset + k, src[k..k + len], if copied then len else 0)
    ensures Spliced(f, h, n, offset, src, if copied then k + len else k)
  {
    hide Spliced;
    if copied {
      SplicedStep(f, g, h, n, offset, src, k, len);
    } else {
      assert Spliced(g, h, n, offset + k, src[k..k], 0) by {
        SplicedNone(g, h, n, offset + k, src[k..k + len], src[k..k]);
      }
      SplicedStep(f, g, h, n, offset, src, k, 0);
    }
  }

  lemma {:induction false} SplicedNone(g: Fs, h: Fs, n: nat, at: nat, src: seq<Byte>, src': seq<Byte>)
    requires Spliced(g, h, n, at, src, 0)
    ensures Spliced(g, h, n, at, src', 0)
  {
    hide BlockOf, ByteAt;
  }

  /** As `Spliced`, and the file is long enough to hold what has been written; its inode is on disk. */
  ghost predicate Extended(f: Fs, g: Fs, n: nat, offset: nat, src: seq<Byte>, k: nat) {
    && n < |f.inodes| == |g.inodes| && k <= |src| && n < |g.disk|
    && g.inodes[n].size == (if f.inodes[n].size < offset + k then offset + k else f.inodes[n].size)
      && g.disk[n] == g.inodes[n]
    && (forall m :: 0 <= m < |f.inodes| && m != n ==> g.inodes[m].size == f.inodes[m].size)
    && (forall o :: offset <= o < offset + k ==> ByteAt(g, n, o) == src[o - offset])
    && (forall m, o :: 0 <= m < |f.inodes| && 0 <= o < f.inodes[m].size && !(m == n && offset <= o < offset + k) ==>
      ByteAt(g, m, o) == ByteAt(f, m, o))
  }

  lemma {:induction false} SplicedSize(f: Fs, g: Fs, l: Layout, refsWas: Refs, refs: Refs, n: nat, offset: nat,
      src: seq<Byte>, k: nat, size: nat)
    requires FsInv(g, l, refs) && n < |f.inodes| && Spliced(f, g, n, offset, src, k) && offset <= f.inodes[n].size
      && offset + k <= MAXFILE * BSIZE
    requires size == if g.inodes[n].size < offset + k then offset + k else g.inodes[n].size
    requires FsInv(f, l, refsWas)
    ensures FsInv(Resize(g, n, size), l, refs) && Extended(f, Resize(g, n, size), n, offset, src, k)
  {
    hide At, ByteAt, Shadow, Owned;
    assert HoleFree(g, g.inodes, n);
    forall i | 0 <= i && i * BSIZE < size ensures At(g, g.inodes, Place(n, i)) != 0 {
      if i * BSIZE >= g.inodes[n].size {
        assert BlockOf(g, n, i * BSIZE) != 0;
        assert i * BSIZE / BSIZE == i;
      }
    }
    ResizeInv(g, l, refs, n, size);
    forall m, o | 0 <= m < |f.inodes| && 0 <= o < f.inodes[m].size && !(m == n && offset <= o < offset + k)
      ensures ByteAt(Resize(g, n, size), m, o) == ByteAt(f, m, o)
    {
      BelowSize(f, m, o);
    }
  }

  /** What the search for a block costs in bitmap blocks: none if it is there, one if it is new, one more for a new
      indirect block. */
  ghost predicate Priced(f: Fs, g: Fs, n: nat, at: nat, maps: set<nat>)
    requires n < |f.inodes| && |g.inodes| == |f.inodes|
  {
    && (f.inodes[n].chain != 0 ==> g.inodes[n].chain == f.inodes[n].chain)
    && (BlockOf(f, n, at) != 0 ==> maps == {} && g.inodes[n].chain == f.inodes[n].chain)
    && |maps| <= 1 + (if g.inodes[n].chain != f.inodes[n].chain then 1 else 0)
  }

  /** The first `k` bytes of `src` are at `offset` of file `n`; every other byte of every file is as before. */
  ghost predicate Spliced(f: Fs, g: Fs, n: nat, offset: nat, src: seq<Byte>, k: nat) {
    && k <= |src| && |g.inodes| == |f.inodes|
    && (forall m :: 0 <= m < |f.inodes| ==> g.inodes[m].size == f.inodes[m].size)
    && (forall m: nat, o: nat :: BlockOf(f, m, o) != 0 ==> BlockOf(g, m, o) == BlockOf(f, m, o))
    && (forall o :: offset <= o < offset + k ==> BlockOf(g, n, o) != 0 && ByteAt(g, n, o) == src[o - offset])
    && (forall m: nat, o: nat :: BlockOf(f, m, o) != 0 && !(m == n && offset <= o < offset + k) ==>
      ByteAt(g, m, o) == ByteAt(f, m, o))
  }

  lemma {:induction false} NothingSpliced(f: Fs, g: Fs, n: nat, offset: nat, src: seq<Byte>)
    requires Kept(f, g)
    ensures Spliced(f, g, n, offset, src, 0)
  {
    hide BlockOf, ByteAt;
  }

  lemma {:induction false} InBlock(at: nat, o: nat, len: nat)
    requires at % BSIZE + len <= BSIZE && at <= o < at + len
    ensures o / BSIZE == at / BSIZE && o % BSIZE == at % BSIZE + (o - at)
  {
  }

  lemma {:induction false} OutOfChunk(at: nat, o: nat, len: nat)
    requires at % BSIZE + len <= BSIZE && o / BSIZE == at / BSIZE && !(at <= o < at + len)
    ensures o % BSIZE < at % BSIZE || at % BSIZE + len <= o % BSIZE
  {
  }

  lemma {:induction false} ChunkSpliced(f: Fs, g: Fs, l: Layout, refs: Refs, n: nat, at: nat, chunk: seq<Byte>,
      w: Block)
    requires FsInv(g, l, refs) && Kept(f, g) && at % BSIZE + |chunk| <= BSIZE && BlockOf(g, n, at) != 0
      && BlockOf(g, n, at) in g.data
    requires w.bytes == g.data[BlockOf(g, n, at)].bytes[..at % BSIZE] + chunk + g.data[BlockOf(g, n,
      at)].bytes[at % BSIZE + |chunk|..]
    ensures Spliced(f, g.(data := g.data[BlockOf(g, n, at) := w]), n, at, chunk, |chunk|)
  {
    hide At, ByteAt, HoleFree, Shadow;
    var h := g.(data := g.data[BlockOf(g, n, at) := w]);
    forall m: nat, o: nat
      ensures BlockOf(h, m, o) == BlockOf(g, m, o)
      ensures BlockOf(g, m, o) != 0 ==>
        ByteAt(h, m, o) == if m == n && o / BSIZE == at / BSIZE then w.bytes[o % BSIZE] else ByteAt(g, m, o)
    {
      WriteByte(g, l, refs, n, at / BSIZE, w, m, o);
    }
    forall o | at <= o < at + |chunk| ensures BlockOf(h, n, o) != 0 && ByteAt(h, n, o) == chunk[o - at] {
      InBlock(at, o, |chunk|);
    }
    forall m: nat, o: nat | BlockOf(f, m, o) != 0 && !(m == n && at <= o < at + |chunk|)
      ensures ByteAt(h, m, o) == ByteAt(f, m, o) {
      if m == n && o / BSIZE == at / BSIZE {
        OutOfChunk(at, o, |chunk|);
        OwnByte(g, n, o, at);
      }
    }
  }

  lemma {:induction false} OwnByte(g: Fs, n: nat, o: nat, at: nat)
    requires o / BSIZE == at / BSIZE && BlockOf(g, n, at) in g.data
    ensures ByteAt(g, n, o) == g.data[BlockOf(g, n, at)].bytes[o % BSIZE]
  {
  }

  lemma {:induction false} SplicedStep(f: Fs, g: Fs, h: Fs, n: nat, offset: nat, src: seq<Byte>, k: nat, len: nat)
    requires Spliced(f, g, n, offset, src, k) && k + len <= |src|
    requires Spliced(g, h, n, offset + k, src[k..k + len], len)
    ensures Spliced(f, h, n, offset, src, k + len)
  {
    hide BlockOf, ByteAt;
    forall m: nat, o: nat | BlockOf(f, m, o) != 0 ensures BlockOf(h, m, o) == BlockOf(f, m, o) {
      assert BlockOf(g, m, o) == BlockOf(f, m, o);
    }
    forall o | offset <= o < offset + k + len ensures BlockOf(h, n, o) != 0 && ByteAt(h, n, o) == src[o - offset] {
      if o < offset + k {
        assert BlockOf(g, n, o) != 0;
      } else {
        assert src[k..k + len][o - (offset + k)] == src[o - offset];
      }
    }
    forall m: nat, o: nat | BlockOf(f, m, o) != 0 && !(m == n && offset <= o < offset + k + len)
      ensures ByteAt(h, m, o) == ByteAt(f, m, o) {
      assert BlockOf(g, m, o) == BlockOf(f, m, o);
    }
  }

  /** The other inodes are untouched, and of the one with the place only that place. */
  ghost predicate SameInodes(f: Fs, g: Fs, r: Ref) {
    && |g.inodes| == |f.inodes|
    && (forall n :: 0 <= n < |f.inodes| && n != r.n ==> g.inodes[n] == f.inodes[n])
    && (r.n < |f.inodes| && !r.Chain? ==> g.inodes[r.n].chain == f.inodes[r.n].chain)
  }

  lemma {:induction false} Shapes(f: Fs, l: Layout, refs: Refs, n: nat)
    requires FsInv(f, l, refs) && n < |f.inodes|
    ensures |f.inodes[n].addrs| == NDIRECT && |f.disk| == |f.inodes|
    ensures f.inodes[n].chain != 0 ==> f.inodes[n].chain in f.data
  {
    if f.inodes[n].chain != 0 {
      ChainInData(f, l, refs, n);
    }
  }

  lemma {:induction false} MarkedPlace(f: Fs, l: Layout, refs: Refs, r: Ref, b: Word)
    requires FsInv(f, l, refs) && IsPlace(f, r) && At(f, f.inodes, r) == 0 && b < l.size && b < |f.bits| && !f.bits[b]
    ensures CanStore(MarkUsed(f, b), l, refs, r, b)
  {
    hide WordAt, FsInv;
    InvOwned(f, l, refs);
    MarkUsedInv(f, l, refs, b);
    MarkUsedAt(f, l, refs, b, r);
  }

  /** A free block that has been marked and noted at an empty place. */
  lemma {:induction false} StoredAnew(f: Fs, l: Layout, refs: Refs, r: Ref, b: Word, logged: set<nat>)
    requires FsInv(f, l, refs) && IsPlace(f, r) && At(f, f.inodes, r) == 0 && b < l.size && b < |f.bits| && !f.bits[b]
    ensures CanStore(MarkUsed(f, b), l, refs, r, b) && Storable(MarkUsed(f, b), r)
    ensures var h := Store(MarkUsed(f, b), r, b);
            && FsInv(h, l, refs[b := r]) && Kept(f, h) && At(h, h.inodes, r) == b
            && |h.bits| == |f.bits| && r.n < |h.inodes| == |f.inodes|
            && b in h.data && h.data[b] == ZeroBlock() && SameInodes(f, h, r) && Noted(f, h, l.size, r, b)
            && var chain := if r.Indirect? then {h.inodes[r.n].chain} else {};
               Accounted(f, h, l, logged, logged + {BitmapAt(l, b), b} + chain)
  {
    hide FsInv, Kept, At, Store, Accounted, CanStore;
    var g := MarkUsed(f, b);
    Shapes(f, l, refs, r.n);
    MarkUsedInv(f, l, refs, b);
    MarkedPlace(f, l, refs, r, b);
    StoreInv(g, l, refs, r, b);
    StoredShape(g, l, refs, r, b);
    MarkAccounted(f, l, refs, b, logged);
    StoreAccounted(f, g, l, refs, r, b, logged, logged + {BitmapAt(l, b), b});
    KeptTrans(f, g, Store(g, r, b));
    assert Noted(f, Store(g, r, b), l.size, r, b) by { StoredNoted(f, l, refs, r, b); }
  }

  lemma {:induction false} StoredNoted(f: Fs, l: Layout, refs: Refs, r: Ref, b: Word)
    requires FsInv(f, l, refs) && At(f, f.inodes, r) == 0 && b < l.size && b < |f.bits| && !f.bits[b]
    requires CanStore(MarkUsed(f, b), l, refs, r, b)
    ensures Noted(f, Store(MarkUsed(f, b), r, b), l.size, r, b)
  {
    hide At, HoleFree, Shadow;
    var g := MarkUsed(f, b);
    var h := Store(g, r, b);
    ChainAt(g, r);
    forall p: Ref ensures At(h, h.inodes, p) == if p == r then b else At(f, f.inodes, p) {
      StoreAt(g, l, refs, r, b, p);
      MarkUsedAt(f, l, refs, b, p);
    }
  }

  lemma {:induction false} StoredShape(f: Fs, l: Layout, refs: Refs, r: Ref, b: Word)
    requires CanStore(f, l, refs, r, b)
    ensures SameInodes(f, Store(f, r, b), r) && b in Store(f, r, b).data && Store(f, r, b).bits == f.bits
    ensures Store(f, r, b).data[b] == ZeroBlock()
  {
    hide WordAt, PutWord, HoleFree, Shadow;
    if r.Indirect? {
      ChainInData(f, l, refs, r.n);
    }
  }

  lemma {:induction false} PlaceAt(f: Fs, l: Layout, refs: Refs, n: nat, index: nat)
    requires FsInv(f, l, refs) && n < |f.inodes| && index < NDIRECT
    ensures IsPlace(f, Direct(n, index)) && At(f, f.inodes, Direct(n, index)) == f.inodes[n].addrs[index]
    ensures f.inodes[n].addrs[index] != 0 ==> f.inodes[n].addrs[index] in f.data
  {
    hide HoleFree, Shadow;
    var b := At(f, f.inodes, Direct(n, index));
    assert b != 0 ==> b in refs && RefOk(f, l, refs, b);
  }

  lemma {:induction false} ChainPlace(f: Fs, l: Layout, refs: Refs, n: nat, i: nat)
    requires FsInv(f, l, refs) && n < |f.inodes| && i < NINDIRECT
    ensures IsPlace(f, Chain(n)) && At(f, f.inodes, Chain(n)) == f.inodes[n].chain
    ensures f.inodes[n].chain != 0 ==>
      && f.inodes[n].chain in f.data && IsPlace(f, Indirect(n, i))
      && At(f, f.inodes, Indirect(n, i)) == WordAt(f.data[f.inodes[n].chain], i)
    ensures f.inodes[n].chain == 0 ==> At(f, f.inodes, Indirect(n, i)) == 0
  {
    hide HoleFree, Shadow, WordAt;
    if f.inodes[n].chain != 0 {
      ChainInData(f, l, refs, n);
    }
  }

  lemma {:induction false} PlaceInData(f: Fs, l: Layout, refs: Refs, p: Ref)
    requires FsInv(f, l, refs) && At(f, f.inodes, p) != 0
    ensures At(f, f.inodes, p) in f.data
  {
    hide HoleFree, Shadow, At;
    assert RefOk(f, l, refs, At(f, f.inodes, p));
  }

  lemma {:induction false} NoPlace(f: Fs, n: nat, index: nat)
    requires index >= MAXFILE
    ensures At(f, f.inodes, Place(n, index)) == 0
  {
  }

  lemma {:induction false} BitsLong(f: Fs, l: Layout, refs: Refs)
    requires FsInv(f, l, refs)
    ensures 0 < l.nmeta && l.size <= |f.bits|
  {
  }
}
