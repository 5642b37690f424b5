/** Inodes, their blocks and the block bitmap: who refers to which block. */
module FsTree {
  import opened Blocks

  const NDIRECT: nat := 12
  const NINDIRECT: nat := 256
  const MAXFILE: nat := 268
  const BITMAP_BITS: nat := 8192
  const INODES_PER_BLOCK: nat := 16

  /** The parts of an inode that say where its contents are. */
  datatype Inode = Inode(size: nat, addrs: seq<nat>, chain: nat)

  /** The blocks as the file system sees them, one bit per block, the inodes in memory and those in the inode blocks. */
  datatype Fs = Fs(bits: seq<bool>, data: map<nat, Block>, inodes: seq<Inode>, disk: seq<Inode>)

  /** How many blocks there are, which of them hold no file data, and where inodes and bitmap start. */
  datatype Layout = Layout(size: nat, nmeta: nat, inodestart: nat, bmapstart: nat)

  /** A place that can hold a block number. */
  datatype Ref = Direct(n: nat, i: nat) | Chain(n: nat) | Indirect(n: nat, i: nat)

  /** The block number at a place of the inodes `ns`; zero means none. */
  function At(f: Fs, ns: seq<Inode>, r: Ref): nat {
    match r
    case Direct(n, i) => if n < |ns| && i < |ns[n].addrs| then ns[n].addrs[i] else 0
    case Chain(n) => if n < |ns| then ns[n].chain else 0
    case Indirect(n, i) =>
      if n < |ns| && ns[n].chain != 0 && ns[n].chain in f.data && i < NINDIRECT
      then WordAt(f.data[ns[n].chain], i) else 0
  }

  /** The place that holds the number of the `k`-th block of a file. */
  function Place(n: nat, k: nat): Ref {
    if k < NDIRECT then Direct(n, k) else Indirect(n, k - NDIRECT)
  }

  type Refs = map<nat, Ref>

  ghost predicate RefOk(f: Fs, l: Layout, refs: Refs, b: nat)
    requires b in refs
  {
    l.nmeta <= b < l.size && b < |f.bits| && f.bits[b] && b in f.data && At(f, f.inodes, refs[b]) == b
  }

  /** Every referenced block is a data block that the bitmap has marked, and is referenced from one place only. */
  ghost predicate Owned(f: Fs, l: Layout, refs: Refs) {
    && 0 < l.nmeta <= l.size <= |f.bits| && (forall b :: 0 <= b < l.nmeta ==> f.bits[b])
    && (forall n :: 0 <= n < |f.inodes| ==> |f.inodes[n].addrs| == NDIRECT)
    && (forall b :: b in refs ==> RefOk(f, l, refs, b))
    && (forall r: Ref :: At(f, f.inodes, r) != 0 ==> At(f, f.inodes, r) in refs && refs[At(f, f.inodes, r)] == r)
  }

  ghost predicate IsPlace(f: Fs, r: Ref) {
    match r
    case Direct(n, i) => n < |f.inodes| && i < NDIRECT
    case Chain(n) => n < |f.inodes|
    case Indirect(n, i) => n < |f.inodes| && i < NINDIRECT && f.inodes[n].chain != 0 && f.inodes[n].chain in f.data
  }

  predicate Storable(f: Fs, r: Ref) {
    match r
    case Direct(n, i) => n < |f.inodes| && i < |f.inodes[n].addrs|
    case Chain(n) => n < |f.inodes|
    case Indirect(n, i) => n < |f.inodes| && f.inodes[n].chain in f.data && i < NINDIRECT
  }

  /** Notes block `b` at a place. */
  function Store(f: Fs, r: Ref, b: Word): Fs
    requires Storable(f, r)
  {
    match r
    case Direct(n, i) => f.(inodes := f.inodes[n := f.inodes[n].(addrs := f.inodes[n].addrs[i := b])])
    case Chain(n) => f.(inodes := f.inodes[n := f.inodes[n].(chain := b)])
    case Indirect(n, i) => f.(data := f.data[f.inodes[n].chain := PutWord(f.data[f.inodes[n].chain], i, b)])
  }

  /** The chains of two inodes are different blocks. */
  lemma {:induction false} ChainsApart(f: Fs, l: Layout, refs: Refs, n: nat, m: nat)
    requires Owned(f, l, refs) && n < |f.inodes| && m < |f.inodes| && f.inodes[n].chain != 0
      && f.inodes[n].chain == f.inodes[m].chain
    ensures n == m
  {
    assert At(f, f.inodes, Chain(n)) == f.inodes[n].chain && At(f, f.inodes, Chain(m)) == f.inodes[m].chain;
  }

  lemma {:induction false} ChainInData(f: Fs, l: Layout, refs: Refs, n: nat)
    requires Owned(f, l, refs) && n < |f.inodes| && f.inodes[n].chain != 0
    ensures f.inodes[n].chain in f.data && f.inodes[n].chain in refs && refs[f.inodes[n].chain] == Chain(n)
  {
    assert At(f, f.inodes, Chain(n)) == f.inodes[n].chain;
  }

  /** Noting a block at a place changes what is noted there and nowhere else. */
  lemma {:induction false} StoreAt(f: Fs, l: Layout, refs: Refs, r: Ref, b: Word, p: Ref)
    requires Owned(f, l, refs) && IsPlace(f, r)
    requires r.Chain? ==> f.inodes[r.n].chain == 0 && b in f.data && f.data[b] == ZeroBlock()
    ensures At(Store(f, r, b), Store(f, r, b).inodes, p) == if p == r then b else At(f, f.inodes, p)
  {
    hide WordAt, PutWord;
    match r
    case Direct(n, i) =>
    case Chain(n) =>
      if p.Indirect? && p.i < NINDIRECT {
        ZeroWord(p.i);
      }
    case Indirect(n, i) =>
      if p.Indirect? && p.n < |f.inodes| && p.i < NINDIRECT {
        PutWordGet(f.data[f.inodes[n].chain], i, b, p.i);
        if f.inodes[p.n].chain == f.inodes[n].chain {
          ChainsApart(f, l, refs, p.n, n);
        }
      }
  }

  /** A block that is marked and not referenced can be noted at an empty place. */
  lemma {:induction false} StoreOwned(f: Fs, l: Layout, refs: Refs, r: Ref, b: Word)
    requires Owned(f, l, refs) && IsPlace(f, r) && At(f, f.inodes, r) == 0
    requires l.nmeta <= b < l.size && f.bits[b] && b in f.data && b !in refs
    requires r.Chain? ==> f.data[b] == ZeroBlock()
    ensures Owned(Store(f, r, b), l, refs[b := r])
  {
    hide At, Store;
    var f' := Store(f, r, b);
    var refs' := refs[b := r];
    StoreShape(f, r, b);
    assert r.Chain? ==> f.inodes[r.n].chain == 0 by { ChainAt(f, r); }
    forall c | c in refs' ensures RefOk(f', l, refs', c) {
      StoreAt(f, l, refs, r, b, refs'[c]);
      assert c != b ==> RefOk(f, l, refs, c);
    }
    forall p: Ref | At(f', f'.inodes, p) != 0
      ensures At(f', f'.inodes, p) in refs' && refs'[At(f', f'.inodes, p)] == p {
      StoreAt(f, l, refs, r, b, p);
    }
  }

  lemma {:induction false} ChainAt(f: Fs, r: Ref)
    requires r.Chain? ==> r.n < |f.inodes| && At(f, f.inodes, r) == 0
    ensures r.Chain? ==> f.inodes[r.n].chain == 0
  {
  }

  lemma {:induction false} StoreShape(f: Fs, r: Ref, b: Word)
    requires IsPlace(f, r) && forall n :: 0 <= n < |f.inodes| ==> |f.inodes[n].addrs| == NDIRECT
    ensures var g := Store(f, r, b);
            && g.bits == f.bits && |g.inodes| == |f.inodes| && g.disk == f.disk
            && (forall c :: c in f.data ==> c in g.data)
            && (forall n :: 0 <= n < |g.inodes| ==>
              |g.inodes[n].addrs| == NDIRECT && g.inodes[n].size == f.inodes[n].size)
  {
  }

  // ---- allocating and freeing blocks -------------------------------------------------------------------------

  /** `allocate_block` on a clear bit: the block is marked and zeroed. */
  function MarkUsed(f: Fs, b: nat): Fs
    requires b < |f.bits|
  {
    f.(bits := f.bits[b := true], data := f.data[b := ZeroBlock()])
  }

  function MarkFree(f: Fs, b: nat): Fs
    requires b < |f.bits|
  {
    f.(bits := f.bits[b := false])
  }

  /** Blocks that nobody refers to can be written to. */
  lemma {:induction false} ScribbleAt(f: Fs, l: Layout, refs: Refs, b: nat, v: Block, p: Ref)
    requires Owned(f, l, refs) && (b in refs ==> !refs[b].Chain?)
    ensures At(f.(data := f.data[b := v]), f.inodes, p) == At(f, f.inodes, p)
  {
    hide WordAt;
    if p.Indirect? && p.n < |f.inodes| && f.inodes[p.n].chain != 0 {
      ChainInData(f, l, refs, p.n);
    }
  }

  lemma {:induction false} MarkUsedOwned(f: Fs, l: Layout, refs: Refs, b: nat)
    requires Owned(f, l, refs) && b < l.size && !f.bits[b]
    ensures Owned(MarkUsed(f, b), l, refs) && b !in refs && l.nmeta <= b
  {
    hide At;
    assert b in refs ==> RefOk(f, l, refs, b);
    var f' := MarkUsed(f, b);
    forall c | c in refs ensures RefOk(f', l, refs, c) {
      assert RefOk(f, l, refs, c);
      MarkUsedAt(f, l, refs, b, refs[c]);
    }
    forall p: Ref | At(f', f'.inodes, p) != 0 ensures At(f', f'.inodes, p) in refs && refs[At(f', f'.inodes, p)] == p {
      MarkUsedAt(f, l, refs, b, p);
    }
  }

  lemma {:induction false} MarkUsedAt(f: Fs, l: Layout, refs: Refs, b: nat, p: Ref)
    requires Owned(f, l, refs) && b < |f.bits| && b !in refs
    ensures At(MarkUsed(f, b), f.inodes, p) == At(f, f.inodes, p)
  {
    hide Owned;
    ScribbleAt(f, l, refs, b, ZeroBlock(), p);
    SameData(f.(data := f.data[b := ZeroBlock()]), MarkUsed(f, b), p);
  }

  lemma {:induction false} SameData(f: Fs, g: Fs, p: Ref)
    requires g.data == f.data && g.inodes == f.inodes
    ensures At(g, g.inodes, p) == At(f, f.inodes, p)
  {
  }

  /** Writing file data. */
  lemma {:induction false} WriteOwned(f: Fs, l: Layout, refs: Refs, b: nat, v: Block)
    requires Owned(f, l, refs) && b in refs && !refs[b].Chain?
    ensures Owned(f.(data := f.data[b := v]), l, refs)
  {
    hide At;
    var f' := f.(data := f.data[b := v]);
    forall c | c in refs ensures RefOk(f', l, refs, c) {
      assert RefOk(f, l, refs, c);
      ScribbleAt(f, l, refs, b, v, refs[c]);
    }
    forall p: Ref | At(f', f'.inodes, p) != 0 ensures At(f', f'.inodes, p) in refs && refs[At(f', f'.inodes, p)] == p {
      ScribbleAt(f, l, refs, b, v, p);
    }
  }

  // ---- contents ----------------------------------------------------------------------------------------------

  /** The number of the block that holds byte `o` of file `n`. */
  function BlockOf(f: Fs, n: nat, o: nat): nat {
    At(f, f.inodes, Place(n, o / BSIZE))
  }

  function ByteAt(f: Fs, n: nat, o: nat): Byte {
    var b := BlockOf(f, n, o);
    if b in f.data then f.data[b].bytes[o % BSIZE] else 0
  }

  /** Every block below the size of a file is there. */
  ghost predicate HoleFree(f: Fs, ns: seq<Inode>, n: nat)
    requires n < |ns|
  {
    ns[n].size <= MAXFILE * BSIZE && forall k :: 0 <= k && k * BSIZE < ns[n].size ==> At(f, ns, Place(n, k)) != 0
  }

  /** The inode on disk is the one in memory, but for blocks that have been added behind its end. */
  ghost predicate Shadow(f: Fs, n: nat)
    requires n < |f.inodes|
  {
    && n < |f.disk| && f.disk[n].size == f.inodes[n].size && |f.disk[n].addrs| == |f.inodes[n].addrs|
    && (f.disk[n].chain == 0 || f.disk[n].chain == f.inodes[n].chain)
    && (forall i :: 0 <= i < |f.inodes[n].addrs| ==>
      f.disk[n].addrs[i] == 0 || f.disk[n].addrs[i] == f.inodes[n].addrs[i])
    && HoleFree(f, f.disk, n)
  }

  ghost predicate FsInv(f: Fs, l: Layout, refs: Refs) {
    && Owned(f, l, refs) && |f.disk| == |f.inodes|
    && (forall n :: 0 <= n < |f.inodes| ==> HoleFree(f, f.inodes, n))
    && (forall n :: 0 <= n < |f.inodes| ==> Shadow(f, n))
  }

  /** What a place of the inodes on disk holds, it also holds in memory. */
  lemma {:induction false} ShadowAt(f: Fs, n: nat, p: Ref)
    requires n < |f.inodes| && Shadow(f, n) && p.n == n
    ensures At(f, f.disk, p) == 0 || At(f, f.disk, p) == At(f, f.inodes, p)
  {
    hide WordAt;
  }

  lemma {:induction false} FileBlock(f: Fs, l: Layout, refs: Refs, n: nat, o: nat)
    requires Owned(f, l, refs) && BlockOf(f, n, o) != 0
    ensures BlockOf(f, n, o) in refs && refs[BlockOf(f, n, o)] == Place(n, o / BSIZE) && BlockOf(f, n, o) in f.data
    ensures RefOk(f, l, refs, BlockOf(f, n, o))
  {
    hide At;
    assert RefOk(f, l, refs, BlockOf(f, n, o));
  }

  /** A new block behind the end of a file changes no byte of any file. */
  lemma {:induction false} StoreByte(f: Fs, l: Layout, refs: Refs, r: Ref, b: Word, m: nat, o: nat)
    requires Owned(f, l, refs) && IsPlace(f, r) && Place(m, o / BSIZE) != r
    requires r.Chain? ==> f.inodes[r.n].chain == 0 && b in f.data && f.data[b] == ZeroBlock()
    ensures ByteAt(Store(f, r, b), m, o) == ByteAt(f, m, o) && BlockOf(Store(f, r, b), m, o) == BlockOf(f, m, o)
  {
    hide At;
    StoreAt(f, l, refs, r, b, Place(m, o / BSIZE));
    StoreData(f, l, refs, r, b, BlockOf(f, m, o));
    if BlockOf(f, m, o) != 0 {
      FileBlock(f, l, refs, m, o);
    } else {
      ZeroNotData(f, l, refs, r, b);
    }
  }

  lemma {:induction false} StoreData(f: Fs, l: Layout, refs: Refs, r: Ref, b: Word, c: nat)
    requires Owned(f, l, refs) && IsPlace(f, r)
    ensures var g := Store(f, r, b);
            (c in g.data <==> c in f.data)
                && (c in f.data && (c in refs ==> !refs[c].Chain?) && c != 0 ==> g.data[c] == f.data[c])
  {
    hide At;
    if r.Indirect? {
      ChainInData(f, l, refs, r.n);
    }
  }

  lemma {:induction false} ZeroNotData(f: Fs, l: Layout, refs: Refs, r: Ref, b: Word)
    requires Owned(f, l, refs) && IsPlace(f, r)
    ensures var g := Store(f, r, b); (0 in g.data <==> 0 in f.data) && (0 in f.data ==> g.data[0] == f.data[0])
  {
    hide At;
    if r.Indirect? {
      ChainInData(f, l, refs, r.n);
    }
  }

  lemma {:induction false} MarkUsedByte(f: Fs, l: Layout, refs: Refs, b: nat, m: nat, o: nat)
    requires Owned(f, l, refs) && b < l.size && !f.bits[b]
    ensures BlockOf(MarkUsed(f, b), m, o) == BlockOf(f, m, o)
    ensures BlockOf(f, m, o) != 0 ==> ByteAt(MarkUsed(f, b), m, o) == ByteAt(f, m, o)
  {
    hide At;
    MarkUsedOwned(f, l, refs, b);
    MarkUsedAt(f, l, refs, b, Place(m, o / BSIZE));
    if BlockOf(f, m, o) != 0 {
      FileBlock(f, l, refs, m, o);
    }
  }

  /** Writing the block of one file leaves all other bytes. */
  lemma {:induction false} WriteByte(f: Fs, l: Layout, refs: Refs, n: nat, k: nat, v: Block, m: nat, o: nat)
    requires Owned(f, l, refs) && At(f, f.inodes, Place(n, k)) != 0
    ensures var b := At(f, f.inodes, Place(n, k));
            var g := f.(data := f.data[b := v]);
            && BlockOf(g, m, o) == BlockOf(f, m, o)
            && (BlockOf(f, m, o) != 0 ==>
              ByteAt(g, m, o) == if m == n && o / BSIZE == k then v.bytes[o % BSIZE] else ByteAt(f, m, o))
  {
    hide At;
    var b := At(f, f.inodes, Place(n, k));
    assert refs[b] == Place(n, k);
    ScribbleAt(f, l, refs, b, v, Place(m, o / BSIZE));
    if BlockOf(f, m, o) != 0 {
      FileBlock(f, l, refs, m, o);
      if BlockOf(f, m, o) == b {
        assert Place(m, o / BSIZE) == Place(n, k);
      }
    }
  }
}
