/** The log over the buffer cache is a run of `LogRuns`: every call of a method of `Log` is the steps that it stands
    for, flush by flush, so that what holds of every run holds of the disk under the code. */
module LogRefines {
  import opened Blocks
  import Buffers = BufferCache
  import LogModule = Log
  import opened LogCrash
  import opened LogRuns

  /** A disk, the logged contents and the header in memory, between two calls, are the state `s` of `LogRuns`: same
      disk, same header, as many operations, and every home block is worth the same. */
  ghost predicate Coupled(g: Geometry, home: Disk, disk: Disk, logged: Disk, blocks: seq<nat>, outstanding: nat,
      s: State) {
    && Inv(g, home, s) && Whole(s) && s.phase.Idle?
    && s.disk == disk && s.blocks == blocks && |s.ops| == outstanding
    && forall b :: b in s.current ==>
      (b in logged || b in disk) && s.current[b] == if b in logged then logged[b] else disk[b]
  }

  ghost predicate Stands(log: LogModule.Log, home: Disk, s: State)
    reads log, log.block, log.cache, log.cache.Footprint()
  {
    log.Valid() && !log.committing
        && Coupled(log.Geo(), home, log.cache.disk, log.cache.logged, log.Blocks(), log.outstanding, s)
  }

  // ---- flushes ------------------------------------------------------------------------------------------------

  function Flushes(k: nat): (steps: seq<Step>)
    ensures |steps| == k
  {
    if k == 0 then [] else [FlushOne] + Flushes(k - 1)
  }

  /** The flushes of a commit or a recovery, one step each, leave the disk as if they had been done at once. */
  lemma {:induction false} FlushRun(g: Geometry, s: State, d: Disk, k: nat)
    requires (s.phase.Committing? || s.phase.Recovering?) && s.done + k <= |PhaseFlushes(g, s)|
      && (k == 0 ==> s.done < |PhaseFlushes(g, s)|)
    requires s.disk == After(d, PhaseFlushes(g, s), s.done)
    ensures ValidRun(g, s, Flushes(k))
    ensures var r := Run(g, s, Flushes(k));
            && r.disk == After(d, PhaseFlushes(g, s), s.done + k) && r.ops == s.ops
            && r.phase == (if s.done + k == |PhaseFlushes(g, s)| then Idle else s.phase)
            && (s.phase.Recovering? || s.done + k < |PhaseFlushes(g, s)| ==> r.blocks == s.blocks)
            && (s.phase.Committing? && s.done + k == |PhaseFlushes(g, s)| ==> r.blocks == [])
    decreases k
  {
    hide After, PhaseFlushes, ValidRun, Run;
    if k == 0 {
      RunNone(g, s);
    } else {
      var fs := PhaseFlushes(g, s);
      var s1 := Do(g, s, FlushOne);
      AfterNext(d, fs, s.done);
      if s.done + 1 < |fs| {
        SameFlushes(g, s, s1);
        FlushRun(g, s1, d, k - 1);
      } else {
        RunNone(g, s1);
      }
      RunCons(g, s, FlushOne, Flushes(k - 1));
    }
  }

  lemma {:induction false} RunNone(g: Geometry, s: State)
    ensures ValidRun(g, s, []) && Run(g, s, []) == s
  {
  }

  lemma {:induction false} SameFlushes(g: Geometry, s: State, r: State)
    requires r.phase == s.phase && r.blocks == s.blocks && r.current == s.current
    ensures PhaseFlushes(g, r) == PhaseFlushes(g, s)
  {
  }

  lemma {:induction false} AfterNext(d: Disk, fs: seq<Flush>, k: nat)
    requires k < |fs|
    ensures After(d, fs, k + 1) == Put(After(d, fs, k), fs[k].block, fs[k].value)
  {
  }

  lemma {:induction false} RunCons(g: Geometry, s: State, step: Step, steps: seq<Step>)
    requires Enabled(g, s, step) && ValidRun(g, Do(g, s, step), steps)
    ensures ValidRun(g, s, [step] + steps) && Run(g, s, [step] + steps) == Run(g, Do(g, s, step), steps)
  {
    hide Enabled, Do;
    assert ([step] + steps)[1..] == steps;
  }

  // ---- the calls ----------------------------------------------------------------------------------------------

  lemma {:induction false} OneMore<K, T>(m: map<K, T>, k: K, v: T)
    ensures |m[k := v]| == if k in m then |m| else |m| + 1
  {
    assert m[k := v].Keys == m.Keys + {k};
  }

  lemma {:induction false} OneLess<K, T>(m: map<K, T>, k: K)
    requires k in m
    ensures |m - {k}| == |m| - 1
  {
    assert (m - {k}).Keys == m.Keys - {k};
  }

  lemma {:induction false} StartCoupled(g: Geometry, home: Disk, d: Disk, logged: Disk, blocks: seq<nat>, k: nat,
      s: State, op: OpId)
    requires Coupled(g, home, d, logged, blocks, k, s) && !IsFull(|blocks|, k) && op !in s.used
    ensures ValidRun(g, s, [LogRuns.Start(op)])
    ensures Coupled(g, home, d, logged, blocks, k + 1, Run(g, s, [LogRuns.Start(op)]))
  {
    hide Inv, Whole;
    Used(s);
    OneMore(s.ops, op, {});
    RunCons(g, s, LogRuns.Start(op), []);
    RunInv(g, home, s, [LogRuns.Start(op)]);
  }

  lemma {:induction false} Used(s: State)
    requires Whole(s)
    ensures s.ops.Keys <= s.used
  {
  }

  lemma {:induction false} WriteCoupled(g: Geometry, home: Disk, d: Disk, logged: Disk, blocks: seq<nat>, k: nat,
      s: State, op: OpId, b: nat, v: Block)
    requires Coupled(g, home, d, logged, blocks, k, s) && op in s.ops && b in d && !g.InLog(b)
    requires |blocks| < LOGSIZE && |blocks| < g.size - 1
    ensures ValidRun(g, s, [LogRuns.Write(op, b, v)])
    ensures var blocks' := if b in blocks then blocks else blocks + [b];
            Coupled(g, home, d, logged[b := v], blocks', k, Run(g, s, [LogRuns.Write(op, b, v)]))
  {
    hide Inv, Whole;
    var step := LogRuns.Write(op, b, v);
    assert op in s.ops.Keys;
    OneMore(s.ops, op, s.ops[op] + {b});
    RunCons(g, s, step, []);
    RunInv(g, home, s, [step]);
  }

  lemma {:induction false} EndCoupled(g: Geometry, home: Disk, d: Disk, logged: Disk, blocks: seq<nat>, k: nat,
      s: State, op: OpId, announce: Block, clear: Block)
    requires Coupled(g, home, d, logged, blocks, k, s) && op in s.ops && (k > 1 || blocks == [])
    requires Announces(announce, blocks) && Cleared(clear)
    ensures k > 0 && ValidRun(g, s, [LogRuns.End(op, announce, clear)] + Flushes(0))
    ensures Coupled(g, home, d, logged, blocks, k - 1, Run(g, s, [LogRuns.End(op, announce, clear)] + Flushes(0)))
  {
    hide Inv, Whole, Announces, Cleared;
    var step := LogRuns.End(op, announce, clear);
    OneLess(s.ops, op);
    assert op in s.ops.Keys;
    RunCons(g, s, step, []);
    RunInv(g, home, s, [step] + Flushes(0));
  }

  lemma {:induction false} SameValues(g: Geometry, home: Disk, d: Disk, logged: Disk, blocks: seq<nat>, k: nat,
      s: State)
    requires Coupled(g, home, d, logged, blocks, k, s) && forall b :: b in logged <==> b in blocks
    ensures Values(logged, blocks) == Values(s.current, blocks)
  {
    hide Whole, Values;
    var vs, ws := Values(logged, blocks), Values(s.current, blocks);
    forall i | 0 <= i < |vs| ensures vs[i] == ws[i] {
      assert blocks[i] in logged;
      assert blocks[i] in s.current;
    }
  }

  /** With nothing logged, the contents are those on disk. */
  lemma {:induction false} IdleCurrent(g: Geometry, home: Disk, s: State)
    requires Inv(g, home, s) && s.phase.Idle? && s.blocks == []
    ensures forall b :: b in s.current ==> b in s.disk && s.current[b] == s.disk[b]
  {
  }

  lemma {:induction false} CommitRun(g: Geometry, home: Disk, s: State, op: OpId, announce: Block, clear: Block)
    requires Inv(g, home, s) && Whole(s) && s.phase.Idle? && op in s.ops && |s.ops| == 1 && s.blocks != []
    requires Announces(announce, s.blocks) && Cleared(clear)
    ensures var steps := [LogRuns.End(op, announce, clear)] + Flushes(2 * |s.blocks| + 2);
            && ValidRun(g, s, steps)
            && var r := Run(g, s, steps);
               && Inv(g, home, r) && Whole(r) && r.phase.Idle? && r.blocks == [] && |r.ops| == 0
               && r.disk == All(s.disk, CommitFlushes(g, s.blocks, Values(s.current, s.blocks), announce, clear))
  {
    hide Inv, Whole, Announces, Cleared, CommitFlushes, Values, After;
    OneLess(s.ops, op);
    var step := LogRuns.End(op, announce, clear);
    var s1 := Do(g, s, step);
    assert s1.disk == After(s.disk, PhaseFlushes(g, s1), 0) by { AfterNone(s.disk, PhaseFlushes(g, s1)); }
    FlushRun(g, s1, s.disk, 2 * |s.blocks| + 2);
    RunCons(g, s, step, Flushes(2 * |s.blocks| + 2));
    RunInv(g, home, s, [step] + Flushes(2 * |s.blocks| + 2));
  }

  /** The steps of the last `Log::end`: every flush of the commit follows it. */
  lemma {:induction false} CommitCoupled(g: Geometry, home: Disk, d: Disk, logged: Disk, blocks: seq<nat>, s: State,
      op: OpId, announce: Block, clear: Block)
    requires Coupled(g, home, d, logged, blocks, 1, s) && op in s.ops && blocks != []
    requires forall b :: b in logged <==> b in blocks
    requires Announces(announce, blocks) && Cleared(clear)
    ensures var steps := [LogRuns.End(op, announce, clear)] + Flushes(2 * |blocks| + 2);
            && ValidRun(g, s, steps)
            && Coupled(g, home, All(d, CommitFlushes(g, blocks, Values(logged, blocks), announce, clear)), map[], [], 0,
              Run(g, s, steps))
  {
    hide Inv, Whole, Announces, Cleared, CommitFlushes, Values, After, ValidRun, Run;
    SameValues(g, home, d, logged, blocks, 1, s);
    CommitRun(g, home, s, op, announce, clear);
    IdleCurrent(g, home, Run(g, s, [LogRuns.End(op, announce, clear)] + Flushes(2 * |blocks| + 2)));
  }

  lemma {:induction false} AfterNone(d: Disk, fs: seq<Flush>)
    ensures After(d, fs, 0) == d
  {
  }

  lemma {:induction false} SomeHeader(n: Word, block: seq<Word>)
    requires n <= LOGSIZE == |block|
    ensures Announces(EncodeHeader(n, block, ZeroBlock()), block[..n]) && Cleared(ZeroBlock())
  {
    HeaderRoundTrip(n, block, ZeroBlock());
    ZeroWord(0);
  }

  /** `initialize` after a power failure at any point of any run: every flush of the recovery. */
  lemma {:induction false} RecoveryCoupled(g: Geometry, home: Disk, s: State, clear: Block)
    requires Inv(g, home, s) && Whole(s) && Cleared(clear)
    ensures WellFormed(g, s.disk)
    ensures var steps := [PowerFailure(clear)] + Flushes(|RecoveryFlushes(g, s.disk, clear)|);
            && ValidRun(g, s, steps)
            && Coupled(g, home, All(s.disk, RecoveryFlushes(g, s.disk, clear)), map[], [], 0, Run(g, s, steps))
  {
    assert WellFormed(g, s.disk);
    hide Inv, Whole, Cleared, RecoveryFlushes, After, WellFormed;
    var step, k := PowerFailure(clear), |RecoveryFlushes(g, s.disk, clear)|;
    var s1 := Do(g, s, step);
    assert s1.disk == After(s.disk, PhaseFlushes(g, s1), 0) by { AfterNone(s.disk, PhaseFlushes(g, s1)); }
    FlushRun(g, s1, s.disk, k);
    RunCons(g, s, step, Flushes(k));
    RunInv(g, home, s, [step] + Flushes(k));
    IdleCurrent(g, home, Run(g, s, [step] + Flushes(k)));
  }

  // ---- the methods --------------------------------------------------------------------------------------------

  /** `Log::start` is the step `Start`, or none if the caller must sleep. */
  method Start(log: LogModule.Log, ghost home: Disk, ghost s: State, ghost op: OpId)
      returns (entered: bool, ghost steps: seq<Step>)
    requires Stands(log, home, s) && op !in s.used
    modifies log`outstanding
    ensures steps == if entered then [LogRuns.Start(op)] else []
    ensures ValidRun(log.Geo(), s, steps) && Stands(log, home, Run(log.Geo(), s, steps))
  {
    hide Coupled, log.cache.Valid, Loggable, Mounts;
    log.Lengths();
    entered := log.Start();
    steps := if entered then [LogRuns.Start(op)] else [];
    if entered {
      StartCoupled(log.Geo(), home, log.cache.disk, log.cache.logged, log.Blocks(), old(log.outstanding), s, op);
    }
  }

  /** `Log::write` is the step `Write` with the contents of the buffer. */
  method Write(log: LogModule.Log, i: nat, b: Word, ghost home: Disk, ghost s: State, ghost op: OpId)
      returns (ghost steps: seq<Step>)
    requires Stands(log, home, s) && op in s.ops && log.cache.Holds(i, b) && !log.Geo().InLog(b)
      && i < log.cache.buffers.Length
    requires log.n < LOGSIZE && log.n < log.size - 1
    modifies log`n, log.block, log.cache`logged, log.cache`dirty, log.cache.directory.counts
    ensures steps == [LogRuns.Write(op, b, log.cache.buffers[i])]
    ensures ValidRun(log.Geo(), s, steps) && Stands(log, home, Run(log.Geo(), s, steps))
  {
    hide Coupled, log.cache.Valid, Loggable, Mounts;
    log.Lengths();
    log.cache.HeldOnDisk(i, b);
    SomeOperation(log.Geo(), home, log.cache.disk, log.cache.logged, log.Blocks(), log.outstanding, s, op);
    WriteCoupled(log.Geo(), home, log.cache.disk, log.cache.logged, log.Blocks(), log.outstanding, s, op, b,
        log.cache.buffers[i]);
    steps := [LogRuns.Write(op, b, log.cache.buffers[i])];
    log.Write(i, b);
  }

  lemma {:induction false} SomeOperation(g: Geometry, home: Disk, d: Disk, logged: Disk, blocks: seq<nat>, k: nat,
      s: State, op: OpId)
    requires Coupled(g, home, d, logged, blocks, k, s) && op in s.ops
    ensures k > 0
  {
    hide Inv, Whole;
    assert op in s.ops.Keys;
  }

  /** `Log::end` is the step `End`, followed by all flushes of the commit if it is the last operation that ends. */
  method End(log: LogModule.Log, ghost home: Disk, ghost s: State, ghost op: OpId)
    returns (ghost steps: seq<Step>, ghost announce: Block, ghost clear: Block)
    requires Stands(log, home, s) && op in s.ops
    requires log.outstanding == 1 ==> log.cache.dirty == {} && (log.n > 0 ==> log.cache.HasFree())
    modifies log`n, log`outstanding, log`committing, log.cache.Footprint()
    ensures var last := old(log.outstanding) == 1 && old(log.n) > 0;
            steps == [LogRuns.End(op, announce, clear)] + Flushes(if last then 2 * old(log.n) + 2 else 0)
    ensures ValidRun(log.Geo(), s, steps) && Stands(log, home, Run(log.Geo(), s, steps))
  {
    hide Coupled, ValidRun, Run, log.cache.Valid, log.cache.HasFree, Loggable, Mounts, Announces, Cleared,
      CommitFlushes, Values, After, EncodeHeader;
    ghost var g, d, logged, blocks, k := log.Geo(), log.cache.disk, log.cache.logged, log.Blocks(), log.outstanding;
    log.Lengths();
    SomeOperation(g, home, d, logged, blocks, k, s, op);
    SomeHeader(log.n, log.block[..]);
    ghost var header := EncodeHeader(log.n, log.block[..], ZeroBlock());
    assert |blocks| == log.n;
    announce, clear := log.End();
    if k == 1 && blocks != [] {
      CommitCoupled(g, home, d, logged, blocks, s, op, announce, clear);
      steps := [LogRuns.End(op, announce, clear)] + Flushes(2 * |blocks| + 2);
    } else {
      announce, clear := header, ZeroBlock();
      EndCoupled(g, home, d, logged, blocks, k, s, op, announce, clear);
      steps := [LogRuns.End(op, announce, clear)] + Flushes(0);
    }
  }

  lemma {:induction false} StillMounts(g: Geometry, home: Disk, s: State)
    requires Inv(g, home, s)
    ensures WellFormed(g, s.disk) && Mounts(g, s.disk)
  {
  }

  /** After a power failure at any point of a run, a new log over a new cache and the old disk: `initialize` is the rest
      of that run, up to a log that stands for it again. */
  method Recover(cache: Buffers.BufferCache, start: nat, size: nat, ghost home: Disk, ghost s: State)
    returns (log: LogModule.Log, ghost steps: seq<Step>, ghost clear: Block)
    requires Inv(Geometry(start, size), home, s) && Whole(s)
    requires cache.Valid() && cache.disk == s.disk && cache.dirty == {} && cache.logged == map[] && cache.TwoFree()
    modifies cache.Footprint()
    ensures log.cache == cache && log.Geo() == Geometry(start, size) && Cleared(clear)
    ensures WellFormed(log.Geo(), s.disk)
      && steps == [PowerFailure(clear)] + Flushes(|RecoveryFlushes(log.Geo(), s.disk, clear)|)
    ensures ValidRun(log.Geo(), s, steps) && Stands(log, home, Run(log.Geo(), s, steps))
  {
    hide Inv, Whole, Coupled, cache.Valid, cache.TwoFree, WellFormed, Loggable, Mounts, RecoveryFlushes, After, Cleared;
    ghost var g := Geometry(start, size);
    StillMounts(g, home, s);
    log := new LogModule.Log(cache, start, size);
    clear := log.Initialize();
    RecoveryCoupled(g, home, s, clear);
    steps := [PowerFailure(clear)] + Flushes(|RecoveryFlushes(g, s.disk, clear)|);
  }
}
