/** The price of a write: ten blocks of the log are enough, as `FileSystem.CopyFrom` says, and sometimes needed. */
module FsBudget {
  import opened Blocks
  import opened FileSystem
  import opened FsSpace
  import opened FsTree
  import opened Options
  import opened Sets

  /** File `n` ends one byte into its last direct block.  No two free blocks are in the same block of the bitmap, and
      what free blocks hold is left open. */
  ghost predicate Scattered(f: Fs, l: Layout, n: nat) {
    && n < |f.inodes| == |f.disk| && f.inodes[n].size == 11 * BSIZE + 1 && f.inodes[n].chain == 0
    && |f.bits| == 4 * BITMAP_BITS
    && (forall b, c :: 0 <= b < c < |f.bits| && !f.bits[b] && !f.bits[c] ==> b / BITMAP_BITS != c / BITMAP_BITS)
    && (forall b :: b in f.data ==> b < |f.bits| && f.bits[b])
    && l.bmapstart + 4 <= l.nmeta && InodeBlockAt(l, n) < l.bmapstart
  }

  lemma {:induction false} FiveApart(a: nat, b: nat, c: nat, d: nat, e: nat)
    requires a != b && a != c && a != d && a != e && b != c && b != d && b != e && c != d && c != e && d != e
    ensures |{a, b, c, d, e}| == 5
  {
    assert |{a, b, c, d}| == 4;
    assert {a, b, c, d, e} == {a, b, c, d} + {e};
  }

  /** A place that has been filled since: its block and the bit of its block have been logged. */
  lemma {:induction false} NewPlace(f: Fs, g: Fs, l: Layout, refs: Refs, n: nat, p: Ref, logged: set<nat>)
    requires Scattered(f, l, n) && FsInv(g, l, refs) && Accounted(f, g, l, {}, logged)
    requires At(f, f.inodes, p) == 0 && At(g, g.inodes, p) != 0
    ensures var b := At(g, g.inodes, p);
            && b in logged && b < |f.bits| && !f.bits[b] && BitmapAt(l, b) in logged && l.nmeta <= b && b in refs
              && refs[b] == p
  {
    hide At, BlockOf, BitmapAt, InodeBlockAt;
    var b := At(g, g.inodes, p);
    assert RefOk(g, l, refs, b);
    assert b in g.data && g.bits[b];
  }

  /** The block that holds the first byte has been logged. */
  lemma {:induction false} FirstPlace(f: Fs, g: Fs, l: Layout, refs: Refs, n: nat, logged: set<nat>)
    requires Scattered(f, l, n) && FsInv(g, l, refs) && Accounted(f, g, l, {}, logged)
    requires BlockOf(g, n, 11 * BSIZE + 1) != 0 && ByteAt(g, n, 11 * BSIZE + 1) != ByteAt(f, n, 11 * BSIZE + 1)
    ensures var b := BlockOf(g, n, 11 * BSIZE + 1);
            && b in logged && l.nmeta <= b && b in refs && refs[b] == Direct(n, 11)
  {
    hide At, BitmapAt, InodeBlockAt;
    var b := BlockOf(g, n, 11 * BSIZE + 1);
    assert b == At(g, g.inodes, Direct(n, 11));
    assert RefOk(g, l, refs, b);
    if At(f, f.inodes, Direct(n, 11)) == b {
      assert b in f.data ==> g.data[b] != f.data[b];
    }
  }

  lemma {:induction false} LongerFile(f: Fs, g: Fs, l: Layout, n: nat, src: seq<Byte>, refsWas: Refs, logged: set<nat>)
    requires FsInv(f, l, refsWas) && Scattered(f, l, n) && |src| == 3 * BSIZE
      && Extended(f, g, n, 11 * BSIZE + 1, src, |src|)
    requires Accounted(f, g, l, {}, logged)
    ensures n < |g.inodes| && g.inodes[n].size == 14 * BSIZE + 1 && ByteAt(g, n, 11 * BSIZE + 1) == src[0]
    ensures InodeBlockAt(l, n) in logged
  {
    hide At, ByteAt, BlockOf, BitmapAt, Owned, HoleFree;
    assert Shadow(f, n);
    assert g.disk[n] != f.disk[n];
  }

  /** The three blocks behind the direct ones are new, and so is the indirect block. */
  lemma {:induction false} NewBlock(f: Fs, g: Fs, l: Layout, refs: Refs, n: nat, i: nat, logged: set<nat>)
    requires Scattered(f, l, n) && FsInv(g, l, refs) && Accounted(f, g, l, {}, logged)
    requires i < 3 && n < |g.inodes| && g.inodes[n].size == 14 * BSIZE + 1
    ensures At(g, g.inodes, Chain(n)) != 0
    ensures var b := At(g, g.inodes, Indirect(n, i));
            && b in logged && b < |f.bits| && !f.bits[b] && BitmapAt(l, b) in logged && l.nmeta <= b && b in refs
              && refs[b] == Indirect(n, i)
  {
    hide FsInv, Accounted, BitmapAt, InodeBlockAt;
    SizeBlock(g, l, refs, n, (12 + i) * BSIZE);
    assert Place(n, (12 + i) * BSIZE / BSIZE) == Indirect(n, i);
    NewPlace(f, g, l, refs, n, Indirect(n, i), logged);
  }

  /** A write of three blocks of bytes behind the end of a scattered file logs ten blocks if it succeeds: four blocks of
      data, the indirect block, a block of the bitmap for each of the four that are new, and the inode. */
  lemma {:induction false} TenIsReached(f: Fs, g: Fs, l: Layout, refsWas: Refs, refs: Refs, n: nat, src: seq<Byte>,
      logged: set<nat>)
    requires FsInv(f, l, refsWas) && FsInv(g, l, refs) && Scattered(f, l, n)
    requires |src| == 3 * BSIZE && src[0] != ByteAt(f, n, 11 * BSIZE + 1)
    requires Extended(f, g, n, 11 * BSIZE + 1, src, |src|) && Accounted(f, g, l, {}, logged)
    ensures |logged| >= 10
  {
    hide FsInv, Accounted, BitmapAt, InodeBlockAt, Extended, ByteAt;
    LongerFile(f, g, l, n, src, refsWas, logged);
    SizeBlock(g, l, refs, n, 11 * BSIZE + 1);
    FirstPlace(f, g, l, refs, n, logged);
    NewBlock(f, g, l, refs, n, 0, logged);
    NewBlock(f, g, l, refs, n, 1, logged);
    NewBlock(f, g, l, refs, n, 2, logged);
    assert At(f, f.inodes, Chain(n)) == 0;
    hide At, Scattered, BlockOf;
    NewPlace(f, g, l, refs, n, Chain(n), logged);
    Distinct(f, l, n, refs, At(g, g.inodes, Chain(n)), BlockOf(g, n, 11 * BSIZE + 1), At(g, g.inodes, Indirect(n, 0)),
             At(g, g.inodes, Indirect(n, 1)), At(g, g.inodes, Indirect(n, 2)), logged);
  }

  lemma {:induction false} BitsApart(f: Fs, l: Layout, n: nat, b: nat, c: nat)
    requires Scattered(f, l, n) && b < |f.bits| && c < |f.bits| && !f.bits[b] && !f.bits[c] && b != c
    ensures BitmapAt(l, b) != BitmapAt(l, c)
    ensures InodeBlockAt(l, n) < BitmapAt(l, b) < l.nmeta && InodeBlockAt(l, n) < BitmapAt(l, c) < l.nmeta
  {
    hide InodeBlockAt;
    if b < c {
      assert b / BITMAP_BITS != c / BITMAP_BITS;
    } else {
      assert c / BITMAP_BITS != b / BITMAP_BITS;
    }
  }

  lemma {:induction false} Distinct(f: Fs, l: Layout, n: nat, refs: Refs, c: nat, first: nat, x: nat, y: nat, z: nat,
      logged: set<nat>)
    requires Scattered(f, l, n) && c in refs && first in refs && x in refs && y in refs && z in refs
    requires refs[c] == Chain(n) && refs[first] == Direct(n, 11)
    requires refs[x] == Indirect(n, 0) && refs[y] == Indirect(n, 1) && refs[z] == Indirect(n, 2)
    requires l.nmeta <= c && l.nmeta <= first && l.nmeta <= x && l.nmeta <= y && l.nmeta <= z
    requires c < |f.bits| && x < |f.bits| && y < |f.bits| && z < |f.bits| && !f.bits[c] && !f.bits[x] && !f.bits[y]
      && !f.bits[z]
    requires {c, first, x, y, z} <= logged && InodeBlockAt(l, n) in logged
    requires BitmapAt(l, c) in logged && BitmapAt(l, x) in logged && BitmapAt(l, y) in logged
      && BitmapAt(l, z) in logged
    ensures |logged| >= 10
  {
    hide BitmapAt, InodeBlockAt;
    BitsApart(f, l, n, c, x);
    BitsApart(f, l, n, c, y);
    BitsApart(f, l, n, c, z);
    BitsApart(f, l, n, x, y);
    BitsApart(f, l, n, x, z);
    BitsApart(f, l, n, y, z);
    var data := {c, first, x, y, z};
    var meta := {BitmapAt(l, c), BitmapAt(l, x), BitmapAt(l, y), BitmapAt(l, z), InodeBlockAt(l, n)};
    FiveApart(c, first, x, y, z);
    FiveApart(BitmapAt(l, c), BitmapAt(l, x), BitmapAt(l, y), BitmapAt(l, z), InodeBlockAt(l, n));
    assert data !! meta;
    assert |data + meta| == 10;
    SubsetSize(data + meta, logged);
  }

  // ---- such a file system exists -----------------------------------------------------------------------------

  function Addresses(): (addrs: seq<nat>)
    ensures |addrs| == NDIRECT && forall i :: 0 <= i < NDIRECT ==> addrs[i] == 100 + i
  {
    seq(NDIRECT, i => 100 + i)
  }

  function Bits(): (bits: seq<bool>)
    ensures |bits| == 4 * BITMAP_BITS && forall i :: 0 <= i < |bits| ==>
      (bits[i] <==> i % BITMAP_BITS != BITMAP_BITS - 1)
  {
    seq(4 * BITMAP_BITS, i requires i >= 0 => i % BITMAP_BITS != BITMAP_BITS - 1)
  }

  function Zeroed(k: nat): (data: map<nat, Block>)
    ensures forall b :: b in data <==> 100 <= b < 100 + k
  {
    if k == 0 then map[] else Zeroed(k - 1)[100 + (k - 1) := ZeroBlock()]
  }

  function Example(): (f: Fs)
    ensures f.bits == Bits() && f.inodes == [Inode(11 * BSIZE + 1, Addresses(), 0)] && f.disk == f.inodes
      && f.data == Zeroed(NDIRECT)
  {
    var inode := Inode(11 * BSIZE + 1, Addresses(), 0);
    Fs(Bits(), Zeroed(NDIRECT), [inode], [inode])
  }

  lemma {:induction false} ExampleAt(p: Ref)
    ensures At(Example(), Example().inodes, p) == if p.Direct? && p.n == 0 && p.i < NDIRECT then 100 + p.i else 0
  {
  }

  lemma {:induction false} ClearGrows(bits: seq<bool>, j: nat, k: nat)
    requires j <= k <= |bits|
    ensures Clear(bits, j) <= Clear(bits, k)
  {
    if j < k {
      ClearGrows(bits, j, k - 1);
    }
  }

  lemma {:induction false} ExampleClear(j: nat)
    requires j <= 4
    ensures Clear(Bits(), j * BITMAP_BITS) >= j
  {
    if j > 0 {
      var k := j * BITMAP_BITS - 1;
      ExampleClear(j - 1);
      ClearGrows(Bits(), (j - 1) * BITMAP_BITS, k);
      assert k % BITMAP_BITS == BITMAP_BITS - 1;
      assert !Bits()[k];
    }
  }

  lemma {:induction false} MissingBound(f: Fs, n: nat, k: nat, m: nat)
    ensures k <= m ==> Missing(f, n, k, m) <= m - k
    decreases m - k
  {
    hide At;
    if k < m {
      MissingBound(f, n, k + 1, m);
    }
  }

  ghost function ExampleRefs(): Refs {
    map b | b in Zeroed(NDIRECT) :: Direct(0, b - 100)
  }

  function ExampleLayout(): Layout {
    Layout(4 * BITMAP_BITS, 100, 32, 40)
  }

  lemma {:induction false} ExampleInv()
    ensures FsInv(Example(), ExampleLayout(), ExampleRefs()) && Scattered(Example(), ExampleLayout(), 0)
  {
    hide At, Example, Bits, Addresses, Zeroed;
    var f := Example();
    forall p: Ref ensures At(f, f.inodes, p) == if p.Direct? && p.n == 0 && p.i < NDIRECT then 100 + p.i else 0 {
      ExampleAt(p);
    }
    assert Owned(f, ExampleLayout(), ExampleRefs());
    forall k | 0 <= k && k * BSIZE < 11 * BSIZE + 1 ensures At(f, f.inodes, Place(0, k)) != 0 {
      assert k < 12;
    }
    assert HoleFree(f, f.inodes, 0) && Shadow(f, 0);
  }

  lemma {:induction false} ExampleNeed()
    ensures Need(Example(), 0, 11, Last(11 * BSIZE + 1, 3 * BSIZE)) <= 4
  {
    hide At, Example;
    ExampleAt(Place(0, 11));
    MissingBound(Example(), 0, 12, 15);
  }

  /** Such a file system exists, and has just the blocks that the write needs. */
  lemma {:induction false} ScatteredExists() returns (f: Fs, l: Layout, refs: Refs)
    ensures FsInv(f, l, refs) && Scattered(f, l, 0) && l.size == |f.bits|
    ensures Clear(f.bits, l.size) >= Need(f, 0, 11, Last(11 * BSIZE + 1, 3 * BSIZE))
  {
    f, l, refs := Example(), ExampleLayout(), ExampleRefs();
    hide FsInv, Scattered, Example, ExampleRefs, Bits, Clear, Need, Last;
    ExampleInv();
    ExampleNeed();
    ExampleClear(4);
  }

  lemma {:induction false} ExampleByte()
    ensures ByteAt(Example(), 0, 11 * BSIZE + 1) == 0
  {
    hide Example, At;
    ExampleAt(Place(0, 11));
    ZeroedAt(NDIRECT, 111);
  }

  lemma {:induction false} ZeroedAt(k: nat, b: nat)
    requires b in Zeroed(k)
    ensures Zeroed(k)[b] == ZeroBlock()
  {
    hide ZeroBlock;
    if b != 100 + (k - 1) {
      ZeroedAt(k - 1, b);
    }
  }

  /** The write carried out: `copy_from` succeeds and has logged ten blocks. */
  method TenIsAttained() returns (fs: FileSystem, r: Option<nat>)
    ensures fs.Valid() && r == Some(3 * BSIZE) && |fs.logged| == 10
  {
    hide FsInv, Scattered, Example, ExampleRefs, Bits, Clear, Need, Last, Extended, Accounted, ByteAt;
    ghost var refs := ExampleRefs();
    ExampleInv();
    ExampleNeed();
    ExampleClear(4);
    ExampleByte();
    fs := new FileSystem(ExampleLayout(), Example(), refs);
    var src := seq(3 * BSIZE, i => 1);
    ghost var wrote;
    r, wrote := fs.CopyFrom(0, src, 11 * BSIZE + 1, |src|);
    TenIsReached(Example(), fs.f, fs.l, refs, fs.refs, 0, src, fs.logged);
  }
}
