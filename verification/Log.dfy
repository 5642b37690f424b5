/** The log itself: `Log` over the buffer cache, with its loops of disk writes. */
module Log {
  import opened Blocks
  import opened BufferCache
  import opened LogCrash
  import opened LogRuns

  const HEADER_BYTES: nat := 124

  /** The bytes of a `LogHeader`. */
  function HeaderBytes(n: Word, block: seq<Word>): (src: seq<Byte>)
    requires |block| == LOGSIZE
    ensures |src| == HEADER_BYTES
  {
    EncodeHeader(n, block, ZeroBlock()).bytes[..HEADER_BYTES]
  }

  /** Whatever a buffer held beyond the header, writing a header into it announces exactly its first `n` blocks. */
  lemma {:induction false} HeaderAnnounces(n: Word, block: seq<Word>, b: Block)
    requires n <= LOGSIZE == |block| && b.bytes[..HEADER_BYTES] == HeaderBytes(n, block)
    ensures Announces(b, block[..n])
    ensures n == 0 ==> Cleared(b)
  {
    var e := EncodeHeader(n, block, ZeroBlock());
    HeaderRoundTrip(n, block, ZeroBlock());
    hide EncodeHeader;
    forall j | 0 <= j < 1 + LOGSIZE ensures WordAt(b, j) == WordAt(e, j) {
      assert b.bytes[..HEADER_BYTES][4 * j] == e.bytes[..HEADER_BYTES][4 * j];
      assert b.bytes[..HEADER_BYTES][4 * j + 1] == e.bytes[..HEADER_BYTES][4 * j + 1];
      assert b.bytes[..HEADER_BYTES][4 * j + 2] == e.bytes[..HEADER_BYTES][4 * j + 2];
      assert b.bytes[..HEADER_BYTES][4 * j + 3] == e.bytes[..HEADER_BYTES][4 * j + 3];
    }
    assert HeaderBlocks(b) == HeaderBlocks(e);
  }

  lemma {:induction false} AllPush(d: Disk, fs: seq<Flush>, f: Flush)
    ensures All(d, fs + [f]) == Put(All(d, fs), f.block, f.value)
  {
    AfterConcat(d, fs, [f], |fs|);
    assert (fs + [f])[|fs|] == f;
  }

  class Log {
    const cache: BufferCache
    const block: array<Word>
    var start: nat
    var size: nat
    var outstanding: nat
    var committing: bool
    var n: Word

    ghost function Geo(): Geometry
      reads this
    {
      Geometry(start, size)
    }

    ghost function Blocks(): seq<nat>
      requires n <= block.Length
      reads this, block
    {
      block[..n]
    }

    ghost predicate Core()
      reads this, block, cache, cache.Footprint()
    {
      && cache.Valid() && block.Length == LOGSIZE && n <= LOGSIZE
      && block as object !in cache.Footprint()
      && Mounts(Geo(), cache.disk) && Loggable(Geo(), cache.disk, Blocks())
    }

    /** The header in memory names exactly the blocks that the cache keeps pinned. */
    ghost predicate Valid()
      reads this, block, cache, cache.Footprint()
    {
      Core() && forall b :: b in cache.logged <==> b in Blocks()
    }

    constructor (cache: BufferCache, start: nat, size: nat)
      requires cache.Valid() && Mounts(Geometry(start, size), cache.disk)
      ensures Core() && this.cache == cache && Geo() == Geometry(start, size) && Blocks() == []
      ensures outstanding == 0 && !committing && fresh(block)
    {
      this.cache := cache;
      this.start, this.size := start, size;
      outstanding, committing, n := 0, false, 0;
      block := new Word[LOGSIZE](i => 0);
    }

    predicate IsFull()
      reads this
    {
      n + (outstanding + 1) * MAXOPBLOCKS > LOGSIZE
    }

    /** One turn of the loop in `Log::start`: enter, or report that the caller must sleep.  Once entered, every
        outstanding operation can log as much as it may and the log does not overflow; a caller is sent to sleep only
        where one more operation could overflow it or a commit is under way. */
    method Start() returns (entered: bool)
      modifies this`outstanding
      ensures entered ==> !committing && outstanding == old(outstanding) + 1 && n + outstanding * MAXOPBLOCKS <= LOGSIZE
      ensures !entered ==> outstanding == old(outstanding)
      ensures !entered ==> committing || n + (outstanding + 1) * MAXOPBLOCKS > LOGSIZE
    {
      entered := !committing && !IsFull();
      if entered {
        outstanding := outstanding + 1;
      }
    }

    /** `Log::write` of the buffer in slot `i`; its assertions are the caller's duty. */
    method Write(i: nat, b: Word)
      requires Valid() && cache.Holds(i, b) && !Geo().InLog(b)
      requires n < LOGSIZE && n < size - 1 && outstanding > 0
      modifies this`n, block, cache`logged, cache`dirty, cache.directory.counts
      ensures Valid() && cache.logged == old(cache.logged)[b := cache.buffers[i]]
        && cache.dirty == old(cache.dirty) - {b}
      ensures Blocks() == if b in old(Blocks()) then old(Blocks()) else old(Blocks()) + [b]
    {
      hide cache.Valid, Distinct, Mounts;
      cache.HeldOnDisk(i, b);
      var len := n;
      if b !in block[..len] {
        cache.Pin(i, b);
        block[len] := b;
        n := n + 1;
        assert Blocks() == old(Blocks()) + [b];
        DistinctPush(old(Blocks()), b);
      } else {
        cache.Absorb(i, b);
      }
    }

    /** Where the two copying loops read and write. */
    lemma {:induction false} Entry(tail: nat)
      requires Core() && tail < n
      ensures block[tail] in cache.disk && start + tail + 1 in cache.disk
      ensures !Geo().InLog(block[tail]) && Geo().InLog(start + tail + 1)
    {
      hide cache.Valid, Distinct;
      assert block[tail] == Blocks()[tail];
      assert Geo().InLog(start + tail + 1);
    }

    /** The body of the loop of `write_log`. */
    method CopyToLog(tail: nat, ghost v: Block)
      requires Valid() && cache.dirty == {} && cache.HasFree() && tail < n
      requires block[tail] in cache.logged && cache.logged[block[tail]] == v
      modifies cache.Footprint()
      ensures Valid() && cache.dirty == {} && cache.HasFree()
      ensures cache.handles == old(cache.handles) && cache.logged == old(cache.logged)
      ensures cache.trace == old(cache.trace) + [Flush(start + tail + 1, v)]
      ensures cache.disk == Put(old(cache.disk), start + tail + 1, v)
    {
      hide cache.Valid, Distinct, cache.HasFree, cache.TwoFree, cache.Cached;
      Entry(tail);
      cache.LoggedKeepsSlot(block[tail]);
      assert start + tail + 1 !in Blocks();
      cache.CopyBlock(block[tail], start + tail + 1, false);
    }

    lemma {:induction false} Lengths()
      requires Valid()
      ensures n <= block.Length == LOGSIZE && block as object !in cache.Footprint()
    {
      hide cache.Valid, Loggable, Mounts;
    }

    lemma {:induction false} LoggedEntry(tail: nat, values: seq<Block>)
      requires Valid() && tail < n && AreValues(cache.logged, Blocks(), values)
      ensures tail < block.Length && tail < |values| && block[tail] in cache.logged
        && cache.logged[block[tail]] == values[tail]
    {
      hide cache.Valid, Loggable, Mounts;
      assert block[tail] == Blocks()[tail] && block[tail] in Blocks();
    }

    /** `write_log`: copies the logged contents into the log area. */
    method WriteLog(ghost values: seq<Block>)
      requires Valid() && cache.dirty == {} && cache.HasFree()
      requires AreValues(cache.logged, Blocks(), values)
      modifies cache.Footprint()
      ensures Valid() && cache.dirty == {} && cache.HasFree()
      ensures cache.handles == old(cache.handles) && cache.logged == old(cache.logged)
      ensures cache.trace == old(cache.trace) + LogFlushes(Geo(), values)
      ensures cache.disk == All(old(cache.disk), LogFlushes(Geo(), values))
    {
      hide Valid, cache.HasFree;
      ghost var d := cache.disk;
      ghost var fs := LogFlushes(Geo(), values);
      Lengths();
      for tail := 0 to n
        modifies cache.Footprint()
        invariant Valid() && cache.dirty == {} && cache.HasFree()
        invariant cache.handles == old(cache.handles) && cache.logged == old(cache.logged)
        invariant cache.trace == old(cache.trace) + fs[..tail]
        invariant cache.disk == After(d, fs, tail)
      {
        LoggedEntry(tail, values);
        CopyToLog(tail, values[tail]);
        assert fs[..tail + 1] == fs[..tail] + [fs[tail]];
      }
      assert fs[..n] == fs;
    }

    lemma {:induction false} HeaderApart()
      requires Core()
      ensures start in cache.disk && start !in Blocks()
    {
      hide cache.Valid, Distinct;
      assert Geo().InLog(start);
    }

    /** `write_header`: the block it writes announces exactly the header in memory. */
    method WriteHeader() returns (ghost v: Block)
      requires Core() && cache.dirty == {} && cache.HasFree() && forall b :: b in cache.logged ==> b in Blocks()
      modifies cache.Footprint()
      ensures Core() && cache.dirty == {} && cache.HasFree()
      ensures cache.handles == old(cache.handles) && cache.logged == old(cache.logged)
      ensures Announces(v, Blocks()) && (n == 0 ==> Cleared(v))
      ensures cache.trace == old(cache.trace) + [Flush(start, v)] && cache.disk == Put(old(cache.disk), start, v)
    {
      hide cache.Valid, Distinct, Announces, HeaderBytes, Cleared, cache.HasFree, cache.TwoFree, cache.Cached;
      HeaderApart();
      var src := HeaderBytes(n, block[..]);
      v := cache.WriteOut(start, src, false);
      HeaderAnnounces(n, block[..], v);
      assert block[..][..n] == Blocks();
    }

    /** The pinned blocks are those that `install_blocks` has yet to copy. */
    ghost predicate Pinned(tail: nat, recovering: bool)
      requires tail <= n <= block.Length
      reads this, block, cache
    {
      && (forall b :: b in cache.logged ==> b in Blocks())
      && (forall i :: 0 <= i < tail ==> block[i] !in cache.logged)
      && (forall i :: tail <= i < n ==> (block[i] in cache.logged <==> !recovering))
    }

    lemma {:induction false} SameBlock(i: nat, j: nat)
      requires Core() && i < n && j < n && block[i] == block[j]
      ensures i == j
    {
      hide cache.Valid, Mounts;
      var s := Blocks();
      assert Distinct(s);
      assert s[i] == block[i] && s[j] == block[j];
      assert IndexOf(s, s[i]) == i && IndexOf(s, s[j]) == j;
    }

    /** The log area holds these copies. */
    ghost predicate Stored(values: seq<Block>)
      reads this, cache
    {
      forall i :: 0 <= i < |values| ==> StoredAt(values, i)
    }

    ghost predicate StoredAt(values: seq<Block>, i: nat)
      requires i < |values|
      reads this, cache
    {
      start + i + 1 in cache.disk && cache.disk[start + i + 1] == values[i]
    }

    /** The body of the loop of `install_blocks`. */
    method CopyHome(tail: nat, recovering: bool, ghost v: Block)
      requires Core() && cache.dirty == {} && cache.HasFree() && tail < n && Pinned(tail, recovering)
      requires recovering ==> cache.TwoFree()
      requires start + tail + 1 in cache.disk && cache.disk[start + tail + 1] == v
      modifies cache.Footprint()
      ensures Core() && cache.dirty == {} && cache.HasFree() && Pinned(tail + 1, recovering)
      ensures recovering ==> cache.TwoFree()
      ensures cache.handles == old(cache.handles)
      ensures cache.trace == old(cache.trace) + [Flush(block[tail], v)]
      ensures cache.disk == Put(old(cache.disk), block[tail], v)
    {
      hide cache.Valid, Distinct, cache.HasFree, cache.TwoFree, cache.Cached;
      Entry(tail);
      if !recovering {
        cache.LoggedKeepsSlot(block[tail]);
      }
      assert start + tail + 1 !in Blocks();
      cache.CopyBlock(start + tail + 1, block[tail], !recovering);
      forall i | tail < i < n && block[i] == block[tail] ensures false {
        SameBlock(i, tail);
      }
    }

    lemma {:induction false} CopyIntact(d: Disk, values: seq<Block>, tail: nat)
      requires Core() && |values| == n && tail < n
      requires cache.disk == After(d, InstallFlushes(Blocks(), values), tail)
      ensures start + tail + 1 in cache.disk && cache.disk[start + tail + 1] == d[start + tail + 1]
    {
      hide cache.Valid, Loggable, Mounts;
      var fs := InstallFlushes(Blocks(), values);
      Entry(tail);
      forall i | 0 <= i < n ensures fs[i].block == block[i] && !Geo().InLog(block[i]) {
        Entry(i);
      }
      AfterMiss(d, fs, tail, start + tail + 1);
    }

    /** `install_blocks`: copies the log area home, unpins what was pinned, and forgets the transaction. */
    method InstallBlocks(recovering: bool, ghost values: seq<Block>)
      requires Core() && cache.dirty == {} && cache.HasFree() && Pinned(0, recovering)
      requires recovering ==> cache.TwoFree()
      requires |values| == n && Stored(values)
      modifies this`n, cache.Footprint()
      ensures Valid() && n == 0 && cache.logged == map[] && cache.dirty == {} && cache.HasFree()
      ensures cache.handles == old(cache.handles)
      ensures cache.trace == old(cache.trace) + InstallFlushes(old(Blocks()), values)
      ensures cache.disk == All(old(cache.disk), InstallFlushes(old(Blocks()), values))
    {
      hide cache.Valid, Loggable, Mounts, Pinned, cache.HasFree, cache.TwoFree;
      ghost var d := cache.disk;
      ghost var fs := InstallFlushes(Blocks(), values);
      for tail := 0 to n
        modifies cache.Footprint()
        invariant Core() && cache.dirty == {} && cache.HasFree() && Pinned(tail, recovering)
        invariant recovering ==> cache.TwoFree()
        invariant cache.handles == old(cache.handles)
        invariant cache.trace == old(cache.trace) + fs[..tail]
        invariant cache.disk == After(d, fs, tail)
      {
        CopyIntact(d, values, tail);
        assert old(StoredAt(values, tail));
        CopyHome(tail, recovering, values[tail]);
        assert fs[..tail + 1] == fs[..tail] + [fs[tail]];
      }
      assert fs[..n] == fs;
      Finished(recovering);
      n := 0;
      NothingPinned();
    }

    lemma {:induction false} Finished(recovering: bool)
      requires n <= block.Length && Pinned(n, recovering)
      ensures cache.logged == map[]
    {
      assert forall i :: 0 <= i < n ==> Blocks()[i] == block[i];
    }

    lemma {:induction false} NothingPinned()
      requires cache.Valid() && block.Length == LOGSIZE && n == 0 && block as object !in cache.Footprint()
      requires Mounts(Geo(), cache.disk) && cache.logged == map[]
      ensures Valid()
    {
      hide cache.Valid;
      assert Blocks() == [];
    }

    /** `write_log` and `write_header`: the transaction is on disk and announced. */
    method Announce(ghost values: seq<Block>) returns (ghost announce: Block)
      requires Valid() && cache.dirty == {} && cache.HasFree() && AreValues(cache.logged, Blocks(), values)
      modifies cache.Footprint()
      ensures Valid() && cache.dirty == {} && cache.HasFree() && Stored(values)
      ensures cache.handles == old(cache.handles) && cache.logged == old(cache.logged)
      ensures Announces(announce, Blocks())
      ensures var fs := LogFlushes(Geo(), values) + [Flush(start, announce)];
              cache.trace == old(cache.trace) + fs && cache.disk == All(old(cache.disk), fs)
    {
      hide cache.Valid, Loggable, Mounts, Announces, Cleared, cache.HasFree, cache.TwoFree, Stored;
      WriteLog(values);
      announce := WriteHeader();
      AllPush(old(cache.disk), LogFlushes(Geo(), values), Flush(start, announce));
      AreStored(old(cache.disk), values, announce);
    }

    lemma {:induction false} AreStored(d: Disk, values: seq<Block>, announce: Block)
      requires Core() && |values| == n && cache.disk == All(d, LogFlushes(Geo(), values) + [Flush(start, announce)])
      ensures Stored(values)
    {
      hide cache.Valid, Loggable, Mounts;
      forall i | 0 <= i < |values| ensures StoredAt(values, i) {
        Entry(i);
        LoggedAt(Geo(), d, values, announce, start + i + 1);
      }
    }

    /** `install_blocks` and `write_header`, the second half of a commit and the whole of a recovery. */
    method Install(recovering: bool, ghost values: seq<Block>) returns (ghost clear: Block)
      requires Core() && cache.dirty == {} && cache.HasFree() && Pinned(0, recovering)
      requires recovering ==> cache.TwoFree()
      requires |values| == n && Stored(values)
      modifies this`n, cache.Footprint()
      ensures Valid() && n == 0 && cache.logged == map[] && cache.dirty == {}
      ensures cache.handles == old(cache.handles)
      ensures Cleared(clear)
      ensures var fs := InstallFlushes(old(Blocks()), values) + [Flush(start, clear)];
              cache.trace == old(cache.trace) + fs && cache.disk == All(old(cache.disk), fs)
    {
      hide cache.Valid, Loggable, Mounts, Announces, Cleared, cache.HasFree, cache.TwoFree, Stored, Pinned;
      ghost var fs := InstallFlushes(Blocks(), values);
      InstallBlocks(recovering, values);
      clear := WriteHeader();
      AllPush(old(cache.disk), fs, Flush(start, clear));
    }

    method CommitBlocks(ghost values: seq<Block>) returns (ghost announce: Block, ghost clear: Block)
      requires Valid() && cache.dirty == {} && cache.HasFree() && AreValues(cache.logged, Blocks(), values)
      modifies this`n, cache.Footprint()
      ensures Valid() && n == 0 && cache.logged == map[] && cache.dirty == {}
      ensures cache.handles == old(cache.handles)
      ensures Announces(announce, old(Blocks())) && Cleared(clear)
      ensures var fs := CommitFlushes(Geo(), old(Blocks()), values, announce, clear);
              cache.trace == old(cache.trace) + fs && cache.disk == All(old(cache.disk), fs)
    {
      hide cache.Valid, Loggable, Mounts, Announces, Cleared, cache.HasFree, cache.TwoFree, Stored, Pinned, After;
      ghost var d, blocks := cache.disk, Blocks();
      announce := Announce(values);
      AllPinned();
      clear := Install(false, values);
      AfterConcat(d, LogFlushes(Geo(), values) + [Flush(start, announce)],
          InstallFlushes(blocks, values) + [Flush(start, clear)],
                  2 * |blocks| + 2);
    }

    lemma {:induction false} AllPinned()
      requires Valid()
      ensures Pinned(0, false)
    {
      hide cache.Valid, Loggable, Mounts;
      forall i | 0 <= i < n ensures block[i] in cache.logged {
        assert block[i] == Blocks()[i];
      }
    }

    /** `Log::commit`: its disk writes are those of `CommitFlushes`, so that what holds of these holds of it.  The slot
        that its `unwrap`s need is the subject of `SlotsSufficeIff`. */
    method Commit() returns (ghost announce: Block, ghost clear: Block)
      requires Valid() && cache.dirty == {} && (n > 0 ==> cache.HasFree())
      modifies this`n, this`committing, cache.Footprint()
      ensures Valid() && Blocks() == [] && !committing && cache.logged == map[] && cache.dirty == {}
      ensures cache.handles == old(cache.handles)
      ensures old(Blocks()) == [] ==> cache.trace == old(cache.trace) && cache.disk == old(cache.disk)
      ensures old(Blocks()) != [] ==>
        && Announces(announce, old(Blocks())) && Cleared(clear)
        && var fs := CommitFlushes(Geo(), old(Blocks()), old(Values(cache.logged, Blocks())), announce, clear);
        && cache.trace == old(cache.trace) + fs && cache.disk == All(old(cache.disk), fs)
    {
      hide cache.Valid, Loggable, Mounts, Announces, Cleared, cache.HasFree, cache.TwoFree;
      committing := true;
      announce, clear := ZeroBlock(), ZeroBlock();
      if n > 0 {
        announce, clear := CommitBlocks(Values(cache.logged, Blocks()));
      }
      committing := false;
    }

    /** `Log::end`: the last operation to end commits.  Until then others may be changing buffers.  `process::wakeup` is
        the subject of `LogSleep`. */
    method End() returns (ghost announce: Block, ghost clear: Block)
      requires Valid() && !committing && outstanding > 0
      requires outstanding == 1 ==> cache.dirty == {} && (n > 0 ==> cache.HasFree())
      modifies this`n, this`outstanding, this`committing, cache.Footprint()
      ensures Valid() && !committing && outstanding == old(outstanding) - 1 && cache.dirty == old(cache.dirty)
      ensures cache.handles == old(cache.handles)
      ensures outstanding > 0 || old(Blocks()) == [] ==>
        Blocks() == old(Blocks()) && cache.logged == old(cache.logged) && cache.trace == old(cache.trace)
            && cache.disk == old(cache.disk)
      ensures outstanding == 0 && old(Blocks()) != [] ==>
        && Blocks() == [] && cache.logged == map[]
        && Announces(announce, old(Blocks())) && Cleared(clear)
        && var fs := CommitFlushes(Geo(), old(Blocks()), old(Values(cache.logged, Blocks())), announce, clear);
        && cache.trace == old(cache.trace) + fs && cache.disk == All(old(cache.disk), fs)
    {
      hide cache.Valid, Loggable, Mounts, Announces, Cleared, cache.HasFree, cache.TwoFree, Values, CommitFlushes,
        After;
      announce, clear := ZeroBlock(), ZeroBlock();
      outstanding := outstanding - 1;
      if outstanding == 0 {
        announce, clear := Commit();
      }
    }

    /** `read_header`: the header in memory is what the disk announces. */
    method ReadHeader()
      requires Core() && n == 0 && cache.dirty == {} && cache.logged == map[] && cache.TwoFree()
      requires WellFormed(Geo(), cache.disk)
      modifies this`n, block, cache.Footprint()
      ensures Core() && Blocks() == Logged(Geo(), cache.disk)
      ensures cache.dirty == {} && cache.logged == map[] && cache.TwoFree()
      ensures cache.handles == old(cache.handles) && cache.disk == old(cache.disk) && cache.trace == old(cache.trace)
    {
      hide cache.Valid, Loggable;
      assert Geo().InLog(start);
      var header := cache.ReadBlock(start);
      n := WordAt(header, 0);
      for i := 0 to LOGSIZE
        modifies block
        invariant forall j :: 0 <= j < i ==> block[j] == WordAt(header, 1 + j)
      {
        block[i] := WordAt(header, 1 + i);
      }
      assert Blocks() == Logged(Geo(), cache.disk);
    }

    /** `initialize`: a recovery.  Two free slots, which a fresh cache has, are all its `unwrap`s need. */
    method Initialize() returns (ghost clear: Block)
      requires Core() && n == 0 && cache.dirty == {} && cache.logged == map[] && cache.TwoFree()
      requires WellFormed(Geo(), cache.disk)
      modifies this`n, block, cache.Footprint()
      ensures Valid() && Blocks() == [] && cache.logged == map[] && cache.dirty == {}
        && cache.handles == old(cache.handles)
      ensures Cleared(clear)
      ensures var fs := RecoveryFlushes(Geo(), old(cache.disk), clear);
              cache.trace == old(cache.trace) + fs && cache.disk == All(old(cache.disk), fs)
      ensures WellFormed(Geo(), cache.disk) && Logged(Geo(), cache.disk) == []
      ensures Home(Geo(), cache.disk) == View(Geo(), old(cache.disk))
    {
      hide cache.Valid, Loggable, Mounts, Cleared, cache.HasFree, View, Home;
      ghost var d := cache.disk;
      ReadHeader();
      ghost var values := Copies(Geo(), d);
      assert Stored(values) by {
        forall i | 0 <= i < |values| ensures StoredAt(values, i) {
          Entry(i);
        }
      }
      cache.TwoIsFree();
      clear := Install(true, values);
      RecoveryDone(Geo(), d, clear);
    }

    lemma {:induction false} DistinctSize(s: seq<nat>, bs: set<nat>)
      requires Distinct(s) && forall b :: b in bs <==> b in s
      ensures |bs| == |s|
      decreases |s|
    {
      if s == [] {
        assert bs == {};
      } else {
        var k := |s| - 1;
        var t := s[..k];
        assert s == t + [s[k]];
        forall i | 0 <= i < k ensures s[i] != s[k] && IndexOf(t, t[i]) == i {
          assert IndexOf(s, s[i]) == i && IndexOf(s, s[k]) == k;
          assert IndexOf(s, s[IndexOf(t, t[i])]) == IndexOf(t, t[i]);
        }
        DistinctSize(t, bs - {s[k]});
      }
    }

    /** The logged blocks take one slot each, and so does every other block that somebody holds, as a reader may while a
        commit runs.  So `commit` finds a slot for a block of the log area exactly if it is held already or `n` and the
        number of those other blocks together are below the number of buffers. */
    lemma {:induction false} SlotsSufficeIff(b: nat)
      requires Valid() && Geo().InLog(b)
      ensures cache.Cached(b) || cache.HasFree() <==>
              b in cache.Held() || n + |cache.Held() - cache.logged.Keys| < cache.buffers.Length
    {
      hide cache.Valid, cache.HasFree, cache.Cached, cache.Held, Distinct;
      cache.FreeSlotIff();
      DistinctSize(Blocks(), cache.logged.Keys);
      var held, logged := cache.Held(), cache.logged.Keys;
      assert logged + held == logged + (held - logged);
      assert b !in logged;
    }
  }
}
