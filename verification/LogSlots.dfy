/** Commits that find no slot: a full log, and a log with one block less beside a reader. */
module LogSlots {
  import Buffers = BufferCache
  import opened LogCrash
  import LogModule = Log
  import opened LogSpace

  const NBUF: nat := 30

  const START: nat := 2

  ghost predicate Idle(cache: Buffers.BufferCache)
    reads cache
  {
    forall i :: 0 <= i < |cache.handles| ==> cache.handles[i] == 0
  }

  /** `ops` operations are outstanding, `k` blocks have been logged, and nobody holds a buffer. */
  ghost predicate Filled(log: LogModule.Log, size: nat, k: nat, ops: nat)
    reads log, log.block, log.cache, log.cache.Footprint()
  {
    && size <= 0x1_0000 && log.Valid() && log.Geo() == Geometry(START, size) && log.n == k && log.outstanding == ops
      && !log.committing
    && log.cache.disk == BlankDisk(log.Geo())
    && log.cache.buffers.Length == NBUF && log.cache.dirty == {} && Idle(log.cache)
    && forall b :: b in log.cache.logged ==> b < START + size + k
  }

  method Begin(size: nat) returns (log: LogModule.Log)
    requires 0 < size <= 0x1_0000
    ensures Filled(log, size, 0, 3) && fresh(log) && fresh(log.block) && fresh(log.cache.Footprint())
  {
    var cache := new Buffers.BufferCache(NBUF, BlankDisk(Geometry(START, size)));
    BlankMounts(Geometry(START, size));
    cache.Sizes();
    log := new LogModule.Log(cache, START, size);
    var entered := log.Start();
    entered := log.Start();
    entered := log.Start();
    assert log.Valid() by { log.NothingPinned(); }
  }

  lemma {:induction false} FindsSlot(log: LogModule.Log, size: nat, k: nat, ops: nat)
    requires Filled(log, size, k, ops) && k < NBUF
    ensures log.cache.HasFree()
  {
    hide log.cache.Valid, log.cache.HasFree, Distinct, Mounts;
    log.cache.FreeSlotIff();
    log.DistinctSize(log.Blocks(), log.cache.logged.Keys);
    assert log.cache.Held() == {};
    assert log.cache.logged.Keys + {} == log.cache.logged.Keys;
  }

  /** One more block is read, logged and dropped. */
  method FillOne(log: LogModule.Log, ghost size: nat, k: nat)
    requires Filled(log, size, k, 3) && k < LOGSIZE && k < size - 1
    modifies log`n, log.block, log.cache.Footprint()
    ensures Filled(log, size, k + 1, 3)
  {
    hide log.cache.Valid, log.cache.HasFree, log.cache.Cached, Distinct, Mounts, Blank, log.cache.Held;
    var cache, b := log.cache, START + log.size + k;
    FindsSlot(log, size, k, 3);
    assert b in cache.disk;
    cache.Sizes();
    var i := cache.WithRead(b);
    log.Write(i.value, b);
    cache.Drop(i.value, b);
    assert cache.handles == old(cache.handles);
    assert log.Valid();
    assert forall b :: b in log.cache.logged ==> b < START + size + (k + 1);
  }

  method Fill(size: nat, k: nat) returns (log: LogModule.Log)
    requires k <= LOGSIZE && k < size <= 0x1_0000
    ensures Filled(log, size, k, 1) && fresh(log) && fresh(log.block) && fresh(log.cache.Footprint())
  {
    hide Filled;
    log := Begin(size);
    for j := 0 to k
      invariant Filled(log, size, j, 3) && fresh(log) && fresh(log.block) && fresh(log.cache.Footprint())
    {
      FillOne(log, size, j);
    }
    EndOne(log, size, k, 3);
    EndOne(log, size, k, 2);
  }

  method EndOne(log: LogModule.Log, ghost size: nat, ghost k: nat, ghost ops: nat)
    requires Filled(log, size, k, ops) && ops > 1
    modifies log`n, log`outstanding, log`committing, log.cache.Footprint()
    ensures Filled(log, size, k, ops - 1)
  {
    hide log.cache.Valid, Distinct, Mounts, Blank;
    ghost var announce, clear := log.End();
  }

  /** A log with more than LOGSIZE blocks, full: nobody holds a buffer, and the commit of the last operation finds no
      slot for the first block of the log area. */
  method FullLog() returns (log: LogModule.Log)
    ensures Filled(log, LOGSIZE + 1, NBUF, 1)
    ensures !log.cache.Cached(log.start + 1) && !log.cache.HasFree()
  {
    hide log.Valid, log.cache.HasFree, log.cache.Cached;
    log := Fill(LOGSIZE + 1, LOGSIZE);
    log.SlotsSufficeIff(log.start + 1);
    assert log.cache.Held() == {};
  }

  /** The log that mkfs makes, with as many blocks as pass the assertions of `Log::write`, one below the number of
      buffers; a reader holds one more block, and the commit finds no slot. */
  method OneReader() returns (log: LogModule.Log)
    ensures log.Valid() && log.Geo() == Geometry(START, LOGSIZE) && log.n == LOGSIZE - 1 == NBUF - 1
      && log.outstanding == 1
    ensures log.cache.buffers.Length == NBUF && log.cache.dirty == {} && |log.cache.Held()| == 1
    ensures !log.cache.Cached(log.start + 1) && !log.cache.HasFree()
  {
    hide log.cache.Valid, log.cache.HasFree, log.cache.Cached, Distinct, Mounts, Blank;
    log := Fill(LOGSIZE, LOGSIZE - 1);
    var cache, b := log.cache, START + LOGSIZE + LOGSIZE;
    FindsSlot(log, LOGSIZE, LOGSIZE - 1, 1);
    cache.Sizes();
    var i := cache.WithRead(b);
    assert b in cache.Held() by { assert cache.Holds(i.value, b); }
    assert cache.Held() == {b};
    log.SlotsSufficeIff(log.start + 1);
  }
}
