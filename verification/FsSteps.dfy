/** What the elementary steps of the file system keep. */
module FsSteps {
  import opened Blocks
  import opened FsTree

  /** No file has changed in size, and no byte of a block that a file has. */
  ghost predicate Kept(f: Fs, g: Fs) {
    && |g.inodes| == |f.inodes|
    && (forall n :: 0 <= n < |f.inodes| ==> g.inodes[n].size == f.inodes[n].size)
    && (forall n: nat, o: nat :: BlockOf(f, n, o) != 0 ==>
      BlockOf(g, n, o) == BlockOf(f, n, o) && ByteAt(g, n, o) == ByteAt(f, n, o))
  }

  lemma {:induction false} KeptRefl(f: Fs)
    ensures Kept(f, f)
  {
  }

  lemma {:induction false} KeptTrans(f: Fs, g: Fs, h: Fs)
    requires Kept(f, g) && Kept(g, h)
    ensures Kept(f, h)
  {
    hide ByteAt, BlockOf;
    forall n: nat, o: nat | BlockOf(f, n, o) != 0
      ensures BlockOf(h, n, o) == BlockOf(f, n, o) && ByteAt(h, n, o) == ByteAt(f, n, o) {
      assert BlockOf(g, n, o) == BlockOf(f, n, o);
    }
  }

  lemma {:induction false} BelowSize(f: Fs, n: nat, o: nat)
    requires n < |f.inodes| && HoleFree(f, f.inodes, n) && o < f.inodes[n].size
    ensures BlockOf(f, n, o) != 0
  {
    hide At;
    assert o / BSIZE * BSIZE < f.inodes[n].size;
  }

  /** Places that held a block still do. */
  ghost predicate AtKept(f: Fs, g: Fs) {
    && (forall p: Ref :: At(f, f.inodes, p) != 0 ==> At(g, g.inodes, p) == At(f, f.inodes, p))
    && (forall p: Ref :: At(f, f.disk, p) != 0 ==> At(g, g.disk, p) == At(f, f.disk, p))
  }

  lemma {:induction false} KeepHoleFree(f: Fs, g: Fs, n: nat)
    requires AtKept(f, g) && n < |f.inodes| == |g.inodes| && HoleFree(f, f.inodes, n)
      && g.inodes[n].size == f.inodes[n].size
    ensures HoleFree(g, g.inodes, n)
  {
    hide At;
  }

  lemma {:induction false} KeepShadow(f: Fs, g: Fs, n: nat)
    requires AtKept(f, g) && n < |f.inodes| == |g.inodes| && Shadow(f, n) && g.inodes[n].size == f.inodes[n].size
      && g.disk == f.disk
    requires |g.inodes[n].addrs| == |f.inodes[n].addrs|
    requires f.inodes[n].chain != 0 ==> g.inodes[n].chain == f.inodes[n].chain
    requires forall i :: 0 <= i < |f.inodes[n].addrs| && f.inodes[n].addrs[i] != 0 ==>
      g.inodes[n].addrs[i] == f.inodes[n].addrs[i]
    ensures Shadow(g, n)
  {
    hide At;
  }

  lemma {:induction false} KeepInv(f: Fs, g: Fs, l: Layout, refs: Refs, refs': Refs)
    requires FsInv(f, l, refs) && Owned(g, l, refs') && AtKept(f, g) && g.disk == f.disk && |g.inodes| == |f.inodes|
    requires forall n :: 0 <= n < |f.inodes| ==> Grows(f.inodes[n], g.inodes[n])
    ensures FsInv(g, l, refs')
  {
    hide At, HoleFree, Shadow, AtKept;
    forall n | 0 <= n < |g.inodes| ensures HoleFree(g, g.inodes, n) && Shadow(g, n) {
      KeepHoleFree(f, g, n);
      KeepShadow(f, g, n);
    }
  }

  /** The same inode, perhaps with more blocks. */
  ghost predicate Grows(a: Inode, b: Inode) {
    && b.size == a.size && |b.addrs| == |a.addrs| && (a.chain != 0 ==> b.chain == a.chain)
    && forall i :: 0 <= i < |a.addrs| && a.addrs[i] != 0 ==> b.addrs[i] == a.addrs[i]
  }

  // ---- taking a free block -----------------------------------------------------------------------------------

  lemma {:induction false} MarkUsedDiskAt(f: Fs, l: Layout, refs: Refs, b: nat, p: Ref)
    requires FsInv(f, l, refs) && b < l.size && !f.bits[b]
    ensures At(MarkUsed(f, b), f.disk, p) == At(f, f.disk, p)
  {
    hide WordAt, HoleFree;
    MarkUsedOwned(f, l, refs, b);
    if p.Indirect? && p.n < |f.disk| && f.disk[p.n].chain != 0 {
      assert Shadow(f, p.n);
      ChainInData(f, l, refs, p.n);
    }
  }

  lemma {:induction false} MarkUsedInv(f: Fs, l: Layout, refs: Refs, b: nat)
    requires FsInv(f, l, refs) && b < l.size && !f.bits[b]
    ensures FsInv(MarkUsed(f, b), l, refs) && Kept(f, MarkUsed(f, b))
    ensures b !in refs && l.nmeta <= b
  {
    hide At, HoleFree, Shadow, ByteAt;
    var g := MarkUsed(f, b);
    MarkUsedOwned(f, l, refs, b);
    forall p: Ref ensures At(g, g.inodes, p) == At(f, f.inodes, p) && At(g, g.disk, p) == At(f, f.disk, p) {
      MarkUsedAt(f, l, refs, b, p);
      MarkUsedDiskAt(f, l, refs, b, p);
    }
    KeepInv(f, g, l, refs, refs);
    forall n: nat, o: nat | BlockOf(f, n, o) != 0
      ensures BlockOf(g, n, o) == BlockOf(f, n, o) && ByteAt(g, n, o) == ByteAt(f, n, o) {
      MarkUsedByte(f, l, refs, b, n, o);
    }
  }

  // ---- noting it ---------------------------------------------------------------------------------------------

  ghost predicate CanStore(f: Fs, l: Layout, refs: Refs, r: Ref, b: Word) {
    && FsInv(f, l, refs) && IsPlace(f, r) && At(f, f.inodes, r) == 0
    && l.nmeta <= b < l.size && b < |f.bits| && f.bits[b] && b in f.data && b !in refs && f.data[b] == ZeroBlock()
  }

  lemma {:induction false} StoreDiskAt(f: Fs, l: Layout, refs: Refs, r: Ref, b: Word, p: Ref)
    requires CanStore(f, l, refs, r, b) && At(f, f.disk, p) != 0
    ensures At(Store(f, r, b), Store(f, r, b).disk, p) == At(f, f.disk, p)
  {
    hide WordAt, HoleFree, PutWord;
    if p.Indirect? {
      assert Shadow(f, p.n);
      ChainInData(f, l, refs, p.n);
      if r.Indirect? && f.inodes[r.n].chain == f.inodes[p.n].chain {
        PutWordGet(f.data[f.inodes[r.n].chain], r.i, b, p.i);
        ChainsApart(f, l, refs, r.n, p.n);
      }
    }
  }

  lemma {:induction false} StoreGrows(f: Fs, l: Layout, refs: Refs, r: Ref, b: Word, n: nat)
    requires CanStore(f, l, refs, r, b) && n < |f.inodes|
    ensures |Store(f, r, b).inodes| == |f.inodes| && Grows(f.inodes[n], Store(f, r, b).inodes[n])
  {
    hide WordAt, HoleFree, Shadow;
  }

  lemma {:induction false} StoreInv(f: Fs, l: Layout, refs: Refs, r: Ref, b: Word)
    requires CanStore(f, l, refs, r, b)
    ensures FsInv(Store(f, r, b), l, refs[b := r]) && Kept(f, Store(f, r, b))
    ensures At(Store(f, r, b), Store(f, r, b).inodes, r) == b
  {
    hide At, HoleFree, Shadow, ByteAt, Store, BlockOf;
    var g := Store(f, r, b);
    ChainAt(f, r);
    StoreOwned(f, l, refs, r, b);
    StoreShape(f, r, b);
    StoreAt(f, l, refs, r, b, r);
    forall p: Ref | At(f, f.inodes, p) != 0 ensures At(g, g.inodes, p) == At(f, f.inodes, p) {
      StoreAt(f, l, refs, r, b, p);
    }
    forall p: Ref | At(f, f.disk, p) != 0 ensures At(g, g.disk, p) == At(f, f.disk, p) {
      StoreDiskAt(f, l, refs, r, b, p);
    }
    forall n | 0 <= n < |f.inodes| ensures Grows(f.inodes[n], g.inodes[n]) {
      StoreGrows(f, l, refs, r, b, n);
    }
    KeepInv(f, g, l, refs, refs[b := r]);
    forall n: nat, o: nat | BlockOf(f, n, o) != 0
      ensures BlockOf(g, n, o) == BlockOf(f, n, o) && ByteAt(g, n, o) == ByteAt(f, n, o) {
      assert Place(n, o / BSIZE) != r by { BlockOfAt(f, n, o); }
      StoreByte(f, l, refs, r, b, n, o);
    }
  }

  lemma {:induction false} BlockOfAt(f: Fs, n: nat, o: nat)
    ensures BlockOf(f, n, o) == At(f, f.inodes, Place(n, o / BSIZE))
  {
  }

  // ---- writing file data -------------------------------------------------------------------------------------

  lemma {:induction false} WriteDiskAt(f: Fs, l: Layout, refs: Refs, b: nat, v: Block, p: Ref)
    requires FsInv(f, l, refs) && b in refs && !refs[b].Chain?
    ensures At(f.(data := f.data[b := v]), f.disk, p) == At(f, f.disk, p)
  {
    hide WordAt, HoleFree;
    if p.Indirect? && p.n < |f.disk| && f.disk[p.n].chain != 0 {
      assert Shadow(f, p.n);
      ChainInData(f, l, refs, p.n);
    }
  }

  lemma {:induction false} WriteInv(f: Fs, l: Layout, refs: Refs, n: nat, k: nat, v: Block)
    requires FsInv(f, l, refs) && At(f, f.inodes, Place(n, k)) != 0
    ensures FsInv(f.(data := f.data[At(f, f.inodes, Place(n, k)) := v]), l, refs)
  {
    hide At, HoleFree, Shadow;
    var b := At(f, f.inodes, Place(n, k));
    var g := f.(data := f.data[b := v]);
    WriteOwned(f, l, refs, b, v);
    forall p: Ref ensures At(g, g.inodes, p) == At(f, f.inodes, p) && At(g, g.disk, p) == At(f, f.disk, p) {
      ScribbleAt(f, l, refs, b, v, p);
      WriteDiskAt(f, l, refs, b, v, p);
    }
    KeepInv(f, g, l, refs, refs);
  }

  // ---- the end of a write, truncation and eviction -----------------------------------------------------------

  /** The inode gets its new size and is written to its inode block. */
  function Resize(f: Fs, n: nat, size: nat): Fs
    requires n < |f.inodes| && n < |f.disk|
  {
    var i := f.inodes[n].(size := size);
    f.(inodes := f.inodes[n := i], disk := f.disk[n := i])
  }

  lemma {:induction false} ResizeAt(f: Fs, n: nat, size: nat, p: Ref)
    requires n < |f.inodes| && n < |f.disk|
    ensures At(Resize(f, n, size), Resize(f, n, size).inodes, p) == At(f, f.inodes, p)
    ensures At(Resize(f, n, size), Resize(f, n, size).disk, p) ==
      if p.n == n then At(f, f.inodes, p) else At(f, f.disk, p)
  {
    hide WordAt;
  }

  lemma {:induction false} ResizeOwned(f: Fs, l: Layout, refs: Refs, n: nat, size: nat)
    requires Owned(f, l, refs) && n < |f.inodes| && n < |f.disk|
    ensures Owned(Resize(f, n, size), l, refs)
  {
    hide At;
    var g := Resize(f, n, size);
    forall b | b in refs ensures RefOk(g, l, refs, b) {
      assert RefOk(f, l, refs, b);
      ResizeAt(f, n, size, refs[b]);
    }
    forall p: Ref | At(g, g.inodes, p) != 0 ensures At(g, g.inodes, p) in refs && refs[At(g, g.inodes, p)] == p {
      ResizeAt(f, n, size, p);
    }
  }

  lemma {:induction false} ResizeInv(f: Fs, l: Layout, refs: Refs, n: nat, size: nat)
    requires FsInv(f, l, refs) && n < |f.inodes| && size <= MAXFILE * BSIZE
    requires forall k :: 0 <= k && k * BSIZE < size ==> At(f, f.inodes, Place(n, k)) != 0
    ensures FsInv(Resize(f, n, size), l, refs)
    ensures forall m, o ::
      BlockOf(Resize(f, n, size), m, o) == BlockOf(f, m, o) && ByteAt(Resize(f, n, size), m, o) == ByteAt(f, m, o)
  {
    hide At;
    var g := Resize(f, n, size);
    ResizeOwned(f, l, refs, n, size);
    forall p: Ref
      ensures At(g, g.inodes, p) == At(f, f.inodes, p)
      ensures At(g, g.disk, p) == if p.n == n then At(f, f.inodes, p) else At(f, f.disk, p)
    {
      ResizeAt(f, n, size, p);
    }
    forall m | 0 <= m < |g.inodes| ensures HoleFree(g, g.inodes, m) && Shadow(g, m) {
      assert HoleFree(f, f.inodes, m) && Shadow(f, m);
    }
  }

  /** The blocks that file `n` refers to. */
  ghost predicate Belongs(refs: Refs, b: nat, n: nat) {
    b in refs && refs[b].n == n
  }

  function EmptyInode(): Inode {
    Inode(0, [0, 0, 0, 0, 0, 0, 0, 0, 0, 0, 0, 0], 0)
  }

  /** The file system without the blocks of file `n`. */
  ghost predicate Truncated(f: Fs, g: Fs, refs: Refs, n: nat)
    requires n < |f.inodes| && n < |f.disk|
  {
    && g.data == f.data && g.inodes == f.inodes[n := EmptyInode()] && g.disk == f.disk[n := EmptyInode()]
    && |g.bits| == |f.bits| && forall b :: 0 <= b < |f.bits| ==> g.bits[b] == (f.bits[b] && !Belongs(refs, b, n))
  }

  ghost function Without(refs: Refs, n: nat): Refs {
    map b | b in refs && refs[b].n != n :: refs[b]
  }

  lemma {:induction false} TruncatedAt(f: Fs, g: Fs, refs: Refs, n: nat, p: Ref)
    requires n < |f.inodes| && n < |f.disk| && Truncated(f, g, refs, n)
    ensures At(g, g.inodes, p) == if p.n == n then 0 else At(f, f.inodes, p)
    ensures At(g, g.disk, p) == if p.n == n then 0 else At(f, f.disk, p)
  {
    hide WordAt;
  }

  lemma {:induction false} TruncatedInv(f: Fs, g: Fs, l: Layout, refs: Refs, n: nat)
    requires FsInv(f, l, refs) && n < |f.inodes| && Truncated(f, g, refs, n)
    ensures FsInv(g, l, Without(refs, n))
    ensures forall m: nat, o: nat :: m != n ==>
      BlockOf(g, m, o) == BlockOf(f, m, o) && ByteAt(g, m, o) == ByteAt(f, m, o)
  {
    hide At;
    forall p: Ref
      ensures At(g, g.inodes, p) == if p.n == n then 0 else At(f, f.inodes, p)
      ensures At(g, g.disk, p) == if p.n == n then 0 else At(f, f.disk, p)
    {
      TruncatedAt(f, g, refs, n, p);
    }
    forall b | b in Without(refs, n) ensures RefOk(g, l, Without(refs, n), b) {
      assert RefOk(f, l, refs, b);
    }
    forall m | 0 <= m < |g.inodes| ensures HoleFree(g, g.inodes, m) && Shadow(g, m) {
      assert HoleFree(f, f.inodes, m) && Shadow(f, m);
    }
  }

  /** An inode that is dropped from the cache comes back as it is on disk. */
  function Evict(f: Fs, n: nat): Fs
    requires n < |f.inodes| && n < |f.disk|
  {
    f.(inodes := f.inodes[n := f.disk[n]])
  }

  ghost function Remaining(f: Fs, refs: Refs, n: nat): Refs {
    map b | b in refs && (refs[b].n == n ==> At(f, f.disk, refs[b]) == b) :: refs[b]
  }

  lemma {:induction false} EvictAt(f: Fs, n: nat, p: Ref)
    requires n < |f.inodes| && n < |f.disk|
    ensures At(Evict(f, n), Evict(f, n).inodes, p) == if p.n == n then At(f, f.disk, p) else At(f, f.inodes, p)
    ensures At(Evict(f, n), f.disk, p) == At(f, f.disk, p)
  {
    hide WordAt;
  }

  /** Dropping an inode may lose track of blocks, but never leaves a reference to a block that is free or shared. */
  lemma {:induction false} EvictInv(f: Fs, l: Layout, refs: Refs, n: nat)
    requires FsInv(f, l, refs) && n < |f.inodes|
    ensures FsInv(Evict(f, n), l, Remaining(f, refs, n))
    ensures forall m: nat, o: nat :: m < |f.inodes| && o < f.inodes[m].size ==>
      ByteAt(Evict(f, n), m, o) == ByteAt(f, m, o)
  {
    hide At;
    var g := Evict(f, n);
    var refs' := Remaining(f, refs, n);
    forall p: Ref
      ensures At(g, g.inodes, p) == if p.n == n then At(f, f.disk, p) else At(f, f.inodes, p)
      ensures At(g, g.disk, p) == At(f, f.disk, p)
    {
      EvictAt(f, n, p);
    }
    forall b | b in refs' ensures RefOk(g, l, refs', b) {
      assert RefOk(f, l, refs, b);
    }
    forall p: Ref | At(g, g.inodes, p) != 0 ensures At(g, g.inodes, p) in refs' && refs'[At(g, g.inodes, p)] == p {
      if p.n == n {
        ShadowAt(f, n, p);
      }
    }
    forall m | 0 <= m < |g.inodes| ensures HoleFree(g, g.inodes, m) && Shadow(g, m) {
      assert HoleFree(f, f.inodes, m) && Shadow(f, m);
    }
    forall m: nat, o: nat | m < |f.inodes| && o < f.inodes[m].size ensures ByteAt(g, m, o) == ByteAt(f, m, o) {
      EvictByte(f, n, m, o);
    }
  }

  lemma {:induction false} EvictByte(f: Fs, n: nat, m: nat, o: nat)
    requires n < |f.inodes| && m < |f.inodes| && o < f.inodes[m].size && Shadow(f, n)
    ensures ByteAt(Evict(f, n), m, o) == ByteAt(f, m, o)
  {
    hide At;
    EvictAt(f, n, Place(m, o / BSIZE));
    if m == n {
      ShadowAt(f, n, Place(m, o / BSIZE));
      assert o / BSIZE * BSIZE < f.disk[n].size;
    }
  }
}
