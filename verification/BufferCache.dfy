/** The buffer cache: reference-counted slots over the disk.  `get`, the sleep lock and the fill are one step, so a
    buffer that is being changed is met again only after its holder has logged or flushed it. */
module BufferCache {
  import opened Blocks
  import opened Cache
  import opened LogCrash
  import opened Options

  ghost function NoHandles(n: nat): (h: seq<nat>)
    ensures |h| == n && forall i :: 0 <= i < n ==> h[i] == 0
  {
    if n == 0 then [] else NoHandles(n - 1) + [0]
  }

  class BufferCache {
    const buffers: array<Block>
    const directory: RcCache<nat>
    var disk: Disk
    /** All flushes so far. */
    ghost var trace: seq<Flush>
    /** The blocks pinned by the log, with the contents that were logged last. */
    ghost var logged: Disk
    /** The blocks whose buffer has been changed and neither logged nor flushed since. */
    ghost var dirty: set<nat>
    /** How many `Buffer` values each slot has given out. */
    ghost var handles: seq<nat>

    ghost function Key(i: nat): Option<nat>
      requires i < directory.cache.links.Length
      reads directory.cache.links
    {
      directory.cache.links[i].key
    }

    /** What a block is worth to the file system: its logged contents, else those on disk. */
    ghost function Current(b: nat): Block
      requires b in logged || b in disk
      reads this
    {
      if b in logged then logged[b] else disk[b]
    }

    ghost function Footprint(): set<object>
    {
      {this, buffers, directory, directory.counts, directory.cache, directory.cache.links}
    }

    ghost predicate Separate() {
      && buffers as object != directory.counts
      && buffers as object != directory.cache.links
    }

    ghost predicate Slot(i: nat)
      requires i < directory.cache.links.Length == directory.counts.Length == buffers.Length == |handles|
      reads this, buffers, directory, directory.counts, directory.cache.links
    {
      match Key(i)
      case None => handles[i] == 0 && directory.counts[i] == 0
      case Some(b) =>
        && b in disk
        && directory.counts[i] == handles[i] + (if b in logged then 1 else 0) > 0
        && (b in dirty ==> handles[i] > 0)
        && (b !in dirty ==> buffers[i] == Current(b))
    }

    ghost predicate Valid()
      reads this, buffers, directory, directory.counts, directory.cache, directory.cache.links
    {
      && Separate() && directory.Valid() && directory.counts.Length == buffers.Length == |handles|
      && (forall i :: 0 <= i < buffers.Length ==> Slot(i))
      && (forall b :: b in logged ==> b in disk && Cached(b))
    }

    ghost predicate Cached(b: nat)
      reads directory.cache.links
    {
      exists i :: 0 <= i < directory.cache.links.Length && Key(i) == Some(b)
    }

    ghost predicate HasFree()
      reads directory.cache.links
    {
      exists i :: 0 <= i < directory.cache.links.Length && Key(i) == None
    }

    /** A slot that belongs to block `b` and has given out a handle. */
    ghost predicate Holds(i: nat, b: nat)
      reads this, directory.cache.links
    {
      i < directory.cache.links.Length && Key(i) == Some(b) && i < |handles| && handles[i] > 0
    }

    constructor (n: nat, disk: Disk)
      requires n > 0
      ensures Valid() && this.disk == disk && trace == [] && logged == map[] && dirty == {} && buffers.Length == n
      ensures fresh(Footprint())
      ensures forall i :: 0 <= i < n ==> Key(i) == None
    {
      hide Ring, UniqueKeys, ByRemoval;
      buffers := new Block[n](i => ZeroBlock());
      directory := new RcCache<nat>(n);
      this.disk := disk;
      trace, logged, dirty := [], map[], {};
      handles := NoHandles(n);
    }

    lemma {:induction false} OneSlot(i: nat, j: nat)
      requires directory.Valid() && i < directory.cache.links.Length && j < directory.cache.links.Length
      requires Key(i).Some? && Key(i) == Key(j)
      ensures i == j
    {
      hide Ring, ByRemoval;
      var s := directory.cache.links[..];
      assert s[i].key == s[j].key;
    }

    lemma {:induction false} HeldOnDisk(i: nat, b: nat)
      requires Valid() && Holds(i, b)
      ensures b in disk && i < buffers.Length
    {
      assert Slot(i);
    }

    lemma {:induction false} Sizes()
      requires Valid()
      ensures buffers.Length == |handles| == directory.counts.Length == directory.cache.links.Length
      ensures forall i :: 0 <= i < buffers.Length && Key(i) == None ==> handles[i] == 0
    {
      forall i | 0 <= i < buffers.Length && Key(i) == None ensures handles[i] == 0 {
        assert Slot(i);
      }
    }

    /** A logged block keeps its slot. */
    lemma {:induction false} LoggedKeepsSlot(b: nat)
      requires Valid() && b in logged
      ensures Cached(b) && b in disk
    {
    }

    /** `BufferCache::get`: hands out the slot of `b`; until it is filled, its contents are as good as changed. */
    method Get(b: nat) returns (r: Option<nat>, isNew: bool)
      requires Valid() && b in disk && b !in dirty
      modifies this`handles, this`dirty, directory.counts, directory.cache.links
      ensures Valid()
      ensures r.None? <==> !old(Cached(b)) && !old(HasFree())
      ensures r.None? ==> handles == old(handles) && dirty == old(dirty)
      ensures r.Some? ==>
        && Holds(r.value, b) && r.value < buffers.Length && dirty == old(dirty) + {b}
        && handles == old(handles)[r.value := old(handles)[r.value] + 1]
        && (forall j :: 0 <= j < buffers.Length && j != r.value ==> Key(j) == old(Key(j)))
        && old(Key(r.value)) == (if old(Cached(b)) then Some(b) else None)
        && (if isNew then b !in logged else buffers[r.value] == Current(b))
    {
      hide Ring, UniqueKeys, ByRemoval;
      var found := directory.Get(b);
      if found.None? {
        forall j | 0 <= j < buffers.Length ensures Key(j) == old(Key(j)) && Slot(j) {
          assert old(Slot(j));
        }
        return None, false;
      }
      var i := found.value.0;
      isNew := found.value.1;
      assert old(Key(i)) == None || old(Key(i)) == Some(b);
      assert old(Slot(i));
      handles := handles[i := handles[i] + 1];
      dirty := dirty + {b};
      forall j | 0 <= j < buffers.Length ensures Slot(j) {
        assert old(Slot(j));
        if j != i && Key(j) == Some(b) {
          OneSlot(i, j);
        }
      }
      forall c | c in logged ensures Cached(c) {
        var j :| 0 <= j < buffers.Length && old(Key(j)) == Some(c);
        assert Key(j) == Some(c);
      }
      r := Some(i);
    }

    /** A change through `DerefMut`. */
    method Modify(i: nat, b: nat, v: Block)
      requires Valid() && Holds(i, b)
      modifies this`dirty, buffers
      ensures Valid() && dirty == old(dirty) + {b} && i < buffers.Length && buffers[i] == v
      ensures forall j :: 0 <= j < buffers.Length && j != i ==> buffers[j] == old(buffers[j])
    {
      hide Ring, UniqueKeys, ByRemoval;
      buffers[i] := v;
      dirty := dirty + {b};
      forall j | 0 <= j < buffers.Length ensures Slot(j) {
        assert old(Slot(j));
        if j != i && Key(j) == Some(b) {
          OneSlot(i, j);
        }
      }
    }

    /** `with_read`: the last logged contents, else those on disk; it fails only if every slot is taken, and never for a
        block that is logged. */
    method WithRead(b: nat) returns (r: Option<nat>)
      requires Valid() && b in disk && b !in dirty
      modifies this`handles, this`dirty, buffers, directory.counts, directory.cache.links
      ensures Valid() && dirty == old(dirty)
      ensures r.None? <==> !old(Cached(b)) && !old(HasFree())
      ensures b in logged ==> r.Some?
      ensures r.None? ==> handles == old(handles)
      ensures r.Some? ==>
        && Holds(r.value, b) && r.value < buffers.Length && buffers[r.value] == Current(b)
        && handles == old(handles)[r.value := old(handles)[r.value] + 1]
        && (forall j :: 0 <= j < buffers.Length && j != r.value ==>
          Key(j) == old(Key(j)) && buffers[j] == old(buffers[j]))
        && old(Key(r.value)) == (if old(Cached(b)) then Some(b) else None)
    {
      hide Valid;
      if b in logged {
        LoggedKeepsSlot(b);
      }
      var isNew;
      r, isNew := Get(b);
      if r.Some? {
        if isNew {
          Modify(r.value, b, disk[b]);
        }
        Settle(r.value, b);
      }
    }

    /** A buffer that holds what its block is worth needs no more writing. */
    ghost method Settle(i: nat, b: nat)
      requires Valid() && Holds(i, b) && i < buffers.Length && b in disk && buffers[i] == Current(b)
      modifies this`dirty
      ensures Valid() && dirty == old(dirty) - {b}
    {
      hide Ring, UniqueKeys, ByRemoval;
      dirty := dirty - {b};
      forall j | 0 <= j < buffers.Length ensures Slot(j) {
        assert old(Slot(j));
        if j != i && Key(j) == Some(b) {
          OneSlot(i, j);
        }
      }
    }

    /** `with_write`: takes the slot and overwrites the front of its buffer, whatever that held before. */
    method WithWrite(b: nat, src: seq<Byte>) returns (r: Option<nat>)
      requires Valid() && b in disk && b !in dirty && |src| <= BSIZE
      modifies this`handles, this`dirty, buffers, directory.counts, directory.cache.links
      ensures Valid()
      ensures r.None? <==> !old(Cached(b)) && !old(HasFree())
      ensures r.None? ==> handles == old(handles) && dirty == old(dirty)
      ensures r.Some? ==>
        && Holds(r.value, b) && r.value < buffers.Length && dirty == old(dirty) + {b}
        && buffers[r.value].bytes == src + old(buffers[r.value]).bytes[|src|..]
        && handles == old(handles)[r.value := old(handles)[r.value] + 1]
        && (forall j :: 0 <= j < buffers.Length && j != r.value ==>
          Key(j) == old(Key(j)) && buffers[j] == old(buffers[j]))
        && old(Key(r.value)) == (if old(Cached(b)) then Some(b) else None)
    {
      hide Valid;
      var isNew;
      r, isNew := Get(b);
      if r.Some? {
        Modify(r.value, b, RawBlock(src + buffers[r.value].bytes[|src|..]));
      }
    }

    /** Dropping a `Buffer`; changes must have been logged or flushed before the last handle goes. */
    method Drop(i: nat, b: nat)
      requires Valid() && Holds(i, b) && (handles[i] == 1 ==> b !in dirty)
      modifies this`handles, directory.counts, directory.cache, directory.cache.links
      ensures Valid() && handles == old(handles)[i := old(handles)[i] - 1]
      ensures forall j :: 0 <= j < buffers.Length && j != i ==> Key(j) == old(Key(j))
      ensures Key(i) == if handles[i] == 0 && b !in logged then None else Some(b)
    {
      hide Ring, UniqueKeys, ByRemoval, ToEnd;
      assert Slot(i);
      var last := directory.Release(i);
      handles := handles[i := handles[i] - 1];
      forall j | 0 <= j < buffers.Length ensures Slot(j) {
        assert old(Slot(j));
      }
      forall c | c in logged ensures Cached(c) {
        var j :| 0 <= j < buffers.Length && old(Key(j)) == Some(c);
        assert Key(j) == Some(c);
      }
    }

    /** `buffer::pin` by `Log::write`: the contents are now the logged ones, and the slot is kept for them. */
    method Pin(i: nat, b: nat)
      requires Valid() && Holds(i, b) && b !in logged
      modifies this`logged, this`dirty, directory.counts
      ensures Valid() && logged == old(logged)[b := buffers[i]] && dirty == old(dirty) - {b}
    {
      hide Ring, UniqueKeys, ByRemoval;
      assert Slot(i);
      var r := directory.Duplicate(i);
      logged := logged[b := buffers[i]];
      dirty := dirty - {b};
      forall j | 0 <= j < buffers.Length ensures Slot(j) {
        assert old(Slot(j));
        if j != i && Key(j) == Some(b) {
          OneSlot(i, j);
        }
      }
      assert Key(i) == Some(b);
      forall c | c in logged ensures Cached(c) {
        assert c == b || old(Cached(c));
      }
    }

    /** A write of a block that the log already holds pins nothing; its contents are logged anew. */
    ghost method Absorb(i: nat, b: nat)
      requires Valid() && Holds(i, b) && b in logged
      modifies this`logged, this`dirty
      ensures Valid() && logged == old(logged)[b := buffers[i]] && dirty == old(dirty) - {b}
    {
      hide Ring, UniqueKeys, ByRemoval;
      logged := logged[b := buffers[i]];
      dirty := dirty - {b};
      forall j | 0 <= j < buffers.Length ensures Slot(j) {
        assert old(Slot(j));
        if j != i && Key(j) == Some(b) {
          OneSlot(i, j);
        }
      }
    }

    /** `buffer::unpin`: never the last release, since the caller still holds the buffer. */
    method Unpin(i: nat, b: nat)
      requires Valid() && Holds(i, b) && b in logged
      modifies this`logged, this`dirty, directory.counts, directory.cache, directory.cache.links
      ensures Valid() && logged == old(logged) - {b} && dirty == old(dirty) + {b}
      ensures forall j :: 0 <= j < buffers.Length ==> Key(j) == old(Key(j))
    {
      hide Ring, UniqueKeys, ByRemoval, ToEnd;
      assert Slot(i);
      var isReleased := directory.Release(i);
      assert isReleased == Some(false);
      logged := logged - {b};
      dirty := dirty + {b};
      forall j | 0 <= j < buffers.Length ensures Slot(j) {
        assert old(Slot(j));
        if j != i && Key(j) == Some(b) {
          OneSlot(i, j);
        }
      }
      forall c | c in logged ensures Cached(c) {
        var j :| 0 <= j < buffers.Length && old(Key(j)) == Some(c);
        assert Key(j) == Some(c);
      }
    }

    /** `buffer::flush` writes the block out and drops the handle. */
    method Flush(i: nat, b: nat)
      requires Valid() && Holds(i, b) && b !in logged
      modifies this`disk, this`trace, this`dirty, this`handles, directory.counts, directory.cache, directory.cache.links
      ensures Valid() && disk == old(disk)[b := buffers[i]] && dirty == old(dirty) - {b}
      ensures trace == old(trace) + [LogCrash.Flush(b, buffers[i])]
      ensures handles == old(handles)[i := old(handles)[i] - 1]
      ensures forall j :: 0 <= j < buffers.Length && j != i ==> Key(j) == old(Key(j))
      ensures Key(i) == if handles[i] == 0 then None else Some(b)
    {
      hide Ring, UniqueKeys, ByRemoval, ToEnd;
      disk := disk[b := buffers[i]];
      trace := trace + [LogCrash.Flush(b, buffers[i])];
      dirty := dirty - {b};
      forall j | 0 <= j < buffers.Length ensures Slot(j) {
        assert old(Slot(j));
        if j != i && Key(j) == Some(b) {
          OneSlot(i, j);
        }
      }
      Drop(i, b);
    }

    /** There are slots for two blocks at the same time. */
    ghost predicate Room(src: nat, dst: nat)
      reads directory.cache.links
    {
      || (Cached(src) && (Cached(dst) || HasFree()))
      || (Cached(dst) && HasFree())
      || TwoFree()
    }

    ghost predicate TwoFree()
      reads directory.cache.links
    {
      exists i, j :: 0 <= i < j < directory.cache.links.Length && Key(i) == None && Key(j) == None
    }

    /** `with_write`, the unpinning of a logged block, and `flush`. */
    method WriteOut(b: nat, src: seq<Byte>, unpin: bool) returns (ghost v: Block)
      requires Valid() && b in disk && b !in dirty && |src| <= BSIZE && (Cached(b) || HasFree())
      requires unpin <==> b in logged
      modifies Footprint()
      ensures Valid() && dirty == old(dirty) && handles == old(handles) && logged == old(logged) - {b}
      ensures v.bytes[..|src|] == src
      ensures disk == old(disk)[b := v] && trace == old(trace) + [LogCrash.Flush(b, v)]
      ensures forall j :: 0 <= j < buffers.Length ==> Key(j) == old(Key(j)) || (Key(j) == None && handles[j] == 0)
      ensures old(HasFree()) ==> HasFree()
      ensures old(TwoFree()) ==> TwoFree()
    {
      hide Valid;
      Sizes();
      var to := WithWrite(b, src);
      v := buffers[to.value];
      if unpin {
        Unpin(to.value, b);
      }
      Flush(to.value, b);
      assert handles == old(handles);
    }

    /** `with_read` of `src` where there is room for `dst` as well. */
    method ReadBeside(src: nat, dst: nat) returns (from: nat)
      requires Valid() && dirty == {} && src != dst && src in disk && Room(src, dst)
      modifies this`handles, this`dirty, buffers, directory.counts, directory.cache.links
      ensures Valid() && dirty == {} && (Cached(dst) || HasFree())
      ensures Holds(from, src) && from < buffers.Length && buffers[from] == Current(src)
      ensures handles == old(handles)[from := old(handles)[from] + 1]
      ensures forall j :: 0 <= j < buffers.Length && j != from ==> Key(j) == old(Key(j))
      ensures old(Key(from)) == None || old(Key(from)) == Some(src)
      ensures old(Key(from)) == None ==> src !in logged && handles[from] == 1
    {
      hide Valid;
      Sizes();
      if src in logged {
        LoggedKeepsSlot(src);
      }
      var r := WithRead(src);
      from := r.value;
      if old(Cached(dst)) {
        var j :| 0 <= j < buffers.Length && old(Key(j)) == Some(dst);
        assert Key(j) == Some(dst);
      } else if old(Cached(src)) {
        var j :| 0 <= j < buffers.Length && old(Key(j)) == None;
        assert Key(j) == None;
      } else {
        var j, k :| 0 <= j < k < buffers.Length && old(Key(j)) == None && old(Key(k)) == None;
        assert Key(if j == from then k else j) == None;
      }
    }

    /** The body of the two copying loops of the log: read one block, write it over another, flush that. */
    method CopyBlock(src: nat, dst: nat, unpin: bool)
      requires Valid() && dirty == {} && src != dst && src in disk && dst in disk && Room(src, dst)
      requires unpin <==> dst in logged
      modifies Footprint()
      ensures Valid() && dirty == {} && handles == old(handles) && logged == old(logged) - {dst}
      ensures disk == old(disk)[dst := old(Current(src))]
      ensures trace == old(trace) + [LogCrash.Flush(dst, old(Current(src)))]
      ensures forall j :: 0 <= j < buffers.Length ==> Key(j) == old(Key(j)) || Key(j) == None
      ensures old(HasFree()) ==> HasFree()
      ensures old(TwoFree()) ==> TwoFree()
    {
      hide Valid, Cached, Room;
      Sizes();
      var from := ReadBeside(src, dst);
      var v := WriteOut(dst, buffers[from].bytes, unpin);
      assert v.bytes[..BSIZE] == v.bytes;
      Drop(from, src);
      assert handles == old(handles);
    }

    /** `with_read`, a copy of the buffer, and the drop. */
    method ReadBlock(b: nat) returns (v: Block)
      requires Valid() && dirty == {} && b in disk && (Cached(b) || HasFree())
      modifies this`handles, this`dirty, buffers, directory.counts, directory.cache, directory.cache.links
      ensures Valid() && dirty == {} && handles == old(handles) && v == Current(b)
      ensures forall j :: 0 <= j < buffers.Length ==> Key(j) == old(Key(j)) || Key(j) == None
      ensures old(TwoFree()) ==> TwoFree()
    {
      hide Valid;
      Sizes();
      if b in logged {
        LoggedKeepsSlot(b);
      }
      var r := WithRead(b);
      v := buffers[r.value];
      Drop(r.value, b);
      assert handles == old(handles);
    }

    lemma {:induction false} TwoIsFree()
      requires TwoFree()
      ensures HasFree()
    {
      var i, j :| 0 <= i < j < directory.cache.links.Length && Key(i) == None && Key(j) == None;
      assert Key(i) == None;
    }

    /** The blocks that own the first `k` slots. */
    ghost function Owners(k: nat): set<nat>
      requires k <= directory.cache.links.Length
      reads directory.cache.links
    {
      if k == 0 then {} else
        match Key(k - 1)
        case None => Owners(k - 1)
        case Some(b) => Owners(k - 1) + {b}
    }

    lemma {:induction false} OwnersHave(k: nat, b: nat)
      requires k <= directory.cache.links.Length
      ensures b in Owners(k) <==> exists i :: 0 <= i < k && Key(i) == Some(b)
    {
      if k > 0 {
        OwnersHave(k - 1, b);
        assert Key(k - 1) == Some(b) ==> exists i :: 0 <= i < k && Key(i) == Some(b);
      }
    }

    lemma {:induction false} NewOwner(k: nat)
      requires directory.Valid() && k < directory.cache.links.Length && Key(k).Some?
      ensures Key(k).value !in Owners(k)
    {
      hide directory.Valid;
      OwnersHave(k, Key(k).value);
      if i :| 0 <= i < k && Key(i) == Some(Key(k).value) {
        OneSlot(i, k);
      }
    }

    ghost predicate AllTaken(k: nat)
      requires k <= directory.cache.links.Length
      reads directory.cache.links
    {
      forall i :: 0 <= i < k ==> Key(i) != None
    }

    lemma {:induction false} OwnersCount(k: nat)
      requires directory.Valid() && k <= directory.cache.links.Length
      ensures |Owners(k)| <= k
      ensures |Owners(k)| == k <==> AllTaken(k)
    {
      hide directory.Valid;
      if k > 0 {
        OwnersCount(k - 1);
        assert AllTaken(k) <==> AllTaken(k - 1) && Key(k - 1) != None;
        if Key(k - 1).Some? {
          NewOwner(k - 1);
        }
      }
    }

    /** The blocks whose buffer somebody holds. */
    ghost function Held(): set<nat>
      reads this, directory.cache.links
    {
      set i | 0 <= i < directory.cache.links.Length && i < |handles| && Key(i).Some? && handles[i] > 0 :: Key(i).value
    }

    /** A slot is taken by a block that is logged or held, and by no other; so a slot is left exactly if fewer such
        blocks than slots exist. */
    lemma {:induction false} FreeSlotIff()
      requires Valid()
      ensures HasFree() <==> |logged.Keys + Held()| < buffers.Length
      ensures forall b :: Cached(b) <==> b in logged || b in Held()
    {
      hide Ring, UniqueKeys, ByRemoval;
      var n := buffers.Length;
      OwnersCount(n);
      forall b ensures Cached(b) <==> b in logged || b in Held() {
        if i :| 0 <= i < n && Key(i) == Some(b) {
          assert Slot(i);
        }
      }
      forall b: nat ensures b in Owners(n) <==> Cached(b) {
        OwnersHave(n, b);
      }
      assert Owners(n) == logged.Keys + Held();
    }
  }
}
