/** How many blocks are free, and how many a write needs. */
module FsSpace {
  import opened Blocks
  import opened FsTree

  /** The free blocks below `k`. */
  function Clear(bits: seq<bool>, k: nat): nat
    requires k <= |bits|
  {
    if k == 0 then 0 else Clear(bits, k - 1) + if bits[k - 1] then 0 else 1
  }

  lemma {:induction false} ClearMark(bits: seq<bool>, k: nat, b: nat)
    requires k <= |bits| && b < |bits| && !bits[b]
    ensures Clear(bits[b := true], k) == if b < k then Clear(bits, k) - 1 else Clear(bits, k)
  {
    if k > 0 {
      ClearMark(bits, k - 1, b);
    }
  }

  lemma {:induction false} ClearZero(bits: seq<bool>, k: nat)
    requires k <= |bits|
    ensures Clear(bits, k) == 0 <==> forall b :: 0 <= b < k ==> bits[b]
  {
    if k > 0 {
      ClearZero(bits, k - 1);
    }
  }

  /** How many of the blocks `k` up to `m` of a file are missing. */
  function Missing(f: Fs, n: nat, k: nat, m: nat): nat
    decreases m - k
  {
    if k >= m then 0 else Missing(f, n, k + 1, m) + if At(f, f.inodes, Place(n, k)) == 0 then 1 else 0
  }

  /** The indirect block is needed as well for blocks behind the direct ones. */
  function Need(f: Fs, n: nat, k: nat, m: nat): nat {
    if k >= m then 0 else Missing(f, n, k, m) + if m > NDIRECT && At(f, f.inodes, Chain(n)) == 0 then 1 else 0
  }

  /** What it takes to find one block of a file. */
  function Price(f: Fs, n: nat, k: nat): nat {
    (if At(f, f.inodes, Place(n, k)) == 0 then 1 else 0)
    + if k >= NDIRECT && At(f, f.inodes, Chain(n)) == 0 then 1 else 0
  }

  /** Block `b`, which was free, is now noted at place `r`. */
  ghost predicate Noted(f: Fs, g: Fs, size: nat, r: Ref, b: nat) {
    && b < size <= |f.bits| && !f.bits[b] && b != 0 && g.bits == f.bits[b := true]
    && At(f, f.inodes, r) == 0
    && forall p: Ref :: At(g, g.inodes, p) == if p == r then b else At(f, f.inodes, p)
  }

  /** Of the file `n` at most its `k`-th block and its indirect block have been added, each for a free block. */
  ghost predicate Charged(f: Fs, g: Fs, size: nat, n: nat, k: nat) {
    && size <= |f.bits| == |g.bits|
    && (forall j: nat :: j != k ==> At(g, g.inodes, Place(n, j)) == At(f, f.inodes, Place(n, j)))
    && (k < NDIRECT ==> At(g, g.inodes, Chain(n)) == At(f, f.inodes, Chain(n)))
    && Clear(g.bits, size) - Price(g, n, k) == Clear(f.bits, size) - Price(f, n, k)
  }

  lemma {:induction false} ChargedRefl(f: Fs, size: nat, n: nat, k: nat)
    requires size <= |f.bits|
    ensures Charged(f, f, size, n, k)
  {
    hide At;
  }

  lemma {:induction false} ChargedTrans(f: Fs, g: Fs, h: Fs, size: nat, n: nat, k: nat)
    requires Charged(f, g, size, n, k) && Charged(g, h, size, n, k)
    ensures Charged(f, h, size, n, k)
  {
    hide At, Price, Clear;
  }

  /** A place of the file, or its indirect block, has been filled. */
  lemma {:induction false} NotedCharged(f: Fs, g: Fs, size: nat, n: nat, k: nat, r: Ref, b: nat)
    requires Noted(f, g, size, r, b) && (r == Place(n, k) || (r == Chain(n) && k >= NDIRECT))
    ensures Charged(f, g, size, n, k)
  {
    hide At;
    ClearMark(f.bits, size, b);
    forall j: nat | j != k ensures At(g, g.inodes, Place(n, j)) == At(f, f.inodes, Place(n, j)) {
      assert Place(n, j) != r;
    }
  }

  /** Writing file data costs nothing. */
  lemma {:induction false} WriteCharged(f: Fs, g: Fs, l: Layout, refs: Refs, n: nat, k: nat, v: Block)
    requires FsInv(g, l, refs) && At(g, g.inodes, Place(n, k)) != 0 && Charged(f, g, l.size, n, k)
    ensures Charged(f, g.(data := g.data[At(g, g.inodes, Place(n, k)) := v]), l.size, n, k)
  {
    hide At, HoleFree, Shadow;
    var b := At(g, g.inodes, Place(n, k));
    var h := g.(data := g.data[b := v]);
    forall p: Ref ensures At(h, h.inodes, p) == At(g, g.inodes, p) {
      ScribbleAt(g, l, refs, b, v, p);
    }
  }

  lemma {:induction false} MissingSame(f: Fs, g: Fs, n: nat, k: nat, m: nat)
    requires forall j: nat :: k <= j ==> At(g, g.inodes, Place(n, j)) == At(f, f.inodes, Place(n, j))
    ensures Missing(g, n, k, m) == Missing(f, n, k, m)
    decreases m - k
  {
    hide At;
    if k < m {
      MissingSame(f, g, n, k + 1, m);
    }
  }

  /** The free blocks that are left over stay the same from block to block. */
  lemma {:induction false} NeedStep(f: Fs, g: Fs, size: nat, n: nat, k: nat, m: nat)
    requires Charged(f, g, size, n, k) && k < m
    ensures Clear(g.bits, size) - Need(g, n, k, m) == Clear(f.bits, size) - Need(f, n, k, m)
    ensures At(g, g.inodes, Place(n, k)) != 0 ==> Need(g, n, k, m) == Need(g, n, k + 1, m)
    ensures At(g, g.inodes, Place(n, k)) == 0 ==> Need(g, n, k, m) > 0
  {
    MissingSame(f, g, n, k + 1, m);
    assert k >= NDIRECT && At(g, g.inodes, Place(n, k)) != 0 ==> At(g, g.inodes, Chain(n)) != 0;
    hide At;
  }

  /** The block behind the last one that a write touches. */
  function Last(offset: nat, size: nat): nat {
    if size == 0 then offset / BSIZE else (offset + size - 1) / BSIZE + 1
  }

  /** The block at which a write goes on. */
  function Reach(offset: nat, done: nat, size: nat): nat {
    if done >= size then Last(offset, size) else (offset + done) / BSIZE
  }

  lemma {:induction false} ReachNext(offset: nat, done: nat, size: nat, len: nat)
    requires 0 < len && done + len <= size && (offset + done) % BSIZE + len <= BSIZE
    requires done + len < size ==> (offset + done) % BSIZE + len == BSIZE
    ensures Reach(offset, done, size) == (offset + done) / BSIZE < Last(offset, size)
    ensures Reach(offset, done + len, size) == (offset + done) / BSIZE + 1
  {
  }

  lemma {:induction false} NeedNothing(f: Fs, n: nat, m: nat)
    ensures Need(f, n, m, m) == 0
  {
  }

  lemma {:induction false} ReachEnds(offset: nat, size: nat)
    ensures Reach(offset, 0, size) == offset / BSIZE && Reach(offset, size, size) == Last(offset, size)
  {
  }
}
