/** The log in operation: any interleaving of file-system operations, commits, crashes and recoveries.  A spinlock
    section is one step and so is every flush, so a crash may fall between any two flushes. */
module LogRuns {
  import opened Blocks
  import opened LogCrash

  type OpId = nat

  datatype OpWrite = OpWrite(op: OpId, block: nat, value: Block)

  datatype Phase =
    | Idle
    | Committing(before: Disk, announce: Block, clear: Block)
    | Recovering(before: Disk, clear: Block)
    | Panicked

  /** `done` counts the flushes of the current commit or recovery.  `blocks`, `ops` and `current` are the volatile log:
      the logged block numbers, each outstanding operation with the blocks it has logged, and the cached contents.  The
      last four fields record the past and steer nothing. */
  datatype State = State(disk: Disk, phase: Phase, done: nat, blocks: seq<nat>, ops: map<OpId, set<nat>>, current: Disk,
                         committed: seq<seq<OpWrite>>, open: seq<OpWrite>, history: seq<OpWrite>, used: set<OpId>)

  datatype Step =
    | Start(op: OpId)
    | Write(op: OpId, block: nat, value: Block)
    | End(op: OpId, announce: Block, clear: Block)
    | FlushOne
    | PowerFailure(clear: Block)

  /** A disk that mkfs or an earlier recovery left behind, just mounted. */
  function Mounted(g: Geometry, d: Disk): State {
    State(d, Idle, 0, [], map[], Home(g, d), [], [], [], {})
  }

  predicate IsFull(n: nat, outstanding: nat) {
    n + (outstanding + 1) * MAXOPBLOCKS > LOGSIZE
  }

  /** The cached contents of `blocks`, in order. */
  ghost predicate AreValues(current: Disk, blocks: seq<nat>, vs: seq<Block>) {
    |vs| == |blocks| && forall i :: 0 <= i < |vs| && blocks[i] in current ==> vs[i] == current[blocks[i]]
  }

  lemma {:induction false} ValuesExist(current: Disk, blocks: seq<nat>)
    ensures exists vs :: AreValues(current, blocks, vs)
  {
    if blocks == [] {
      assert AreValues(current, blocks, []);
    } else {
      var n := |blocks| - 1;
      ValuesExist(current, blocks[..n]);
      var vs :| AreValues(current, blocks[..n], vs);
      var v := if blocks[n] in current then current[blocks[n]] else ZeroBlock();
      assert AreValues(current, blocks, vs + [v]);
    }
  }

  ghost function Values(current: Disk, blocks: seq<nat>): (vs: seq<Block>)
    ensures AreValues(current, blocks, vs)
  {
    ValuesExist(current, blocks);
    var vs :| AreValues(current, blocks, vs); vs
  }

  /** The disk writes of the commit or recovery under way. */
  ghost function PhaseFlushes(g: Geometry, s: State): seq<Flush> {
    if s.phase.Committing? then
      CommitFlushes(g, s.blocks, Values(s.current, s.blocks), s.phase.announce, s.phase.clear)
    else if s.phase.Recovering? && WellFormed(g, s.phase.before) then
      RecoveryFlushes(g, s.phase.before, s.phase.clear)
    else []
  }

  ghost predicate Enabled(g: Geometry, s: State, step: Step) {
    match step
    case Start(op) => s.phase.Idle? && !IsFull(|s.blocks|, |s.ops|) && op !in s.used
    case Write(op, b, _) => !s.phase.Panicked? && op in s.ops && b in s.disk && !g.InLog(b)
    case End(op, announce, clear) =>
      !s.phase.Panicked? && op in s.ops && Cleared(clear) && Announces(announce, s.blocks)
    case FlushOne => (s.phase.Committing? || s.phase.Recovering?) && s.done < |PhaseFlushes(g, s)|
    case PowerFailure(clear) => Cleared(clear)
  }

  /** `Log::write`: its three assertions come before the test for absorption. */
  predicate WritePasses(g: Geometry, s: State) {
    |s.blocks| < LOGSIZE && |s.blocks| < g.size - 1 && |s.ops| > 0
  }

  function DoWrite(g: Geometry, s: State, op: OpId, b: nat, v: Block): State
    requires op in s.ops
  {
    if !WritePasses(g, s) then s.(phase := Panicked) else
      s.(blocks := if b in s.blocks then s.blocks else s.blocks + [b],
         ops := s.ops[op := s.ops[op] + {b}],
         current := Put(s.current, b, v),
         open := s.open + [OpWrite(op, b, v)],
         history := s.history + [OpWrite(op, b, v)])
  }

  function DoEnd(s: State, op: OpId, announce: Block, clear: Block): State {
    if s.phase.Committing? then s.(phase := Panicked)
    else if |s.ops - {op}| > 0 || |s.blocks| == 0 then s.(ops := s.ops - {op})
    else s.(ops := s.ops - {op}, phase := Committing(s.disk, announce, clear), done := 0)
  }

  /** One flush of a commit; the transaction counts as committed from the first header write on. */
  function DoCommitFlush(s: State, f: Flush, last: bool): State {
    s.(disk := Put(s.disk, f.block, f.value),
       phase := if last then Idle else s.phase,
       done := s.done + 1,
       blocks := if last then [] else s.blocks,
       committed := if s.done == |s.blocks| then s.committed + [s.open] else s.committed,
       open := if s.done == |s.blocks| then [] else s.open)
  }

  function DoRecoveryFlush(g: Geometry, s: State, f: Flush, last: bool): State {
    s.(disk := Put(s.disk, f.block, f.value),
       phase := if last then Idle else s.phase,
       done := s.done + 1,
       current := if last then Home(g, Put(s.disk, f.block, f.value)) else s.current)
  }

  ghost function DoFlush(g: Geometry, s: State): State
    requires Enabled(g, s, FlushOne)
  {
    var fs := PhaseFlushes(g, s);
    var last := s.done + 1 == |fs|;
    if s.phase.Committing? then DoCommitFlush(s, fs[s.done], last) else DoRecoveryFlush(g, s, fs[s.done], last)
  }

  ghost function Do(g: Geometry, s: State, step: Step): State
    requires Enabled(g, s, step)
  {
    match step
    case Start(op) => s.(ops := s.ops[op := {}], used := s.used + {op})
    case Write(op, b, v) => DoWrite(g, s, op, b, v)
    case End(op, announce, clear) => DoEnd(s, op, announce, clear)
    case FlushOne => DoFlush(g, s)
    case PowerFailure(clear) =>
      s.(phase := Recovering(s.disk, clear), done := 0, blocks := [], ops := map[], open := [])
  }

  ghost predicate ValidRun(g: Geometry, s: State, steps: seq<Step>)
    decreases |steps|
  {
    steps == [] || (Enabled(g, s, steps[0]) && ValidRun(g, Do(g, s, steps[0]), steps[1..]))
  }

  ghost function Run(g: Geometry, s: State, steps: seq<Step>): State
    requires ValidRun(g, s, steps)
    decreases |steps|
  {
    if steps == [] then s else Run(g, Do(g, s, steps[0]), steps[1..])
  }

  // What the runs are measured against: a flat block store updated by whole transactions.

  function ReplayTxn(home: Disk, txn: seq<OpWrite>): (h: Disk)
    ensures h.Keys == home.Keys
  {
    if txn == [] then home
    else Put(ReplayTxn(home, txn[..|txn| - 1]), txn[|txn| - 1].block, txn[|txn| - 1].value)
  }

  function Replay(home: Disk, txns: seq<seq<OpWrite>>): (h: Disk)
    ensures h.Keys == home.Keys
  {
    if txns == [] then home else ReplayTxn(Replay(home, txns[..|txns| - 1]), txns[|txns| - 1])
  }

  /** The writes of one operation, in order. */
  function By(ws: seq<OpWrite>, op: OpId): seq<OpWrite> {
    if ws == [] then []
    else By(ws[..|ws| - 1], op) + if ws[|ws| - 1].op == op then [ws[|ws| - 1]] else []
  }

  lemma {:induction false} ByPush(ws: seq<OpWrite>, w: OpWrite, op: OpId)
    ensures By(ws + [w], op) == By(ws, op) + if w.op == op then [w] else []
  {
    assert (ws + [w])[..|ws|] == ws;
  }

  // The invariant of every run.

  /** The cached contents differ from the home blocks of `d` at logged blocks only. */
  ghost predicate Pinned(g: Geometry, d: Disk, blocks: seq<nat>, current: Disk) {
    && current.Keys == Home(g, d).Keys
    && Loggable(g, d, blocks)
    && forall b :: b in current && b !in blocks ==> current[b] == d[b]
  }

  /** Moreover they are the home blocks with the open transaction replayed. */
  ghost predicate Cached(g: Geometry, d: Disk, s: State) {
    && Pinned(g, d, s.blocks, s.current)
    && s.current == ReplayTxn(Home(g, d), s.open)
    && (s.blocks == [] ==> s.open == [])
  }

  ghost predicate PhaseInv(g: Geometry, home: Disk, s: State) {
    match s.phase
    case Idle => WellFormed(g, s.disk) && Logged(g, s.disk) == [] && Cached(g, s.disk, s)
    case Committing(before, announce, clear) =>
      && s.ops == map[] && s.blocks != []
      && WellFormed(g, before) && Logged(g, before) == []
      && Pinned(g, before, s.blocks, s.current) && Announces(announce, s.blocks) && Cleared(clear)
      && s.done < |PhaseFlushes(g, s)|
      && s.disk == After(before, PhaseFlushes(g, s), s.done)
      && (if s.done <= |s.blocks| then s.current == ReplayTxn(Replay(home, s.committed), s.open)
          else s.open == [] && s.current == Replay(home, s.committed))
    case Recovering(before, clear) =>
      && s.ops == map[] && s.open == [] && s.blocks == []
      && WellFormed(g, before) && Cleared(clear)
      && s.done <= |Logged(g, before)|
      && s.disk == After(before, RecoveryFlushes(g, before, clear), s.done)
    case Panicked => true
  }

  /** Every operation whose writes were committed has ended, and all it ever wrote is in one transaction. */
  ghost predicate Whole(s: State) {
    && s.ops.Keys <= s.used
    && (forall op {:trigger By(s.history, op)} :: op !in s.used ==> By(s.history, op) == [])
    && (forall op {:trigger By(s.open, op)} :: op in s.ops || By(s.open, op) != [] ==>
          op in s.used && By(s.history, op) == By(s.open, op))
    && (forall i, op {:trigger By(s.committed[i], op)} :: 0 <= i < |s.committed| && By(s.committed[i], op) != [] ==>
          op in s.used && op !in s.ops && By(s.open, op) == [] && By(s.history, op) == By(s.committed[i], op))
    && (forall i, j, op {:trigger By(s.committed[i], op), s.committed[j]} ::
          0 <= i < j < |s.committed| && By(s.committed[i], op) != [] ==> By(s.committed[j], op) == [])
  }

  ghost predicate Inv(g: Geometry, home: Disk, s: State) {
    && WellFormed(g, s.disk)
    && (s.phase.Idle? || s.phase.Committing? ==> s.current.Keys == home.Keys)
    && View(g, s.disk) == Replay(home, s.committed)
    && PhaseInv(g, home, s)
  }

  lemma {:induction false} MountedInv(g: Geometry, d: Disk)
    requires WellFormed(g, d) && Logged(g, d) == []
    ensures Inv(g, Home(g, d), Mounted(g, d)) && Whole(Mounted(g, d))
  {
    assert View(g, d) == Home(g, d);
  }

  lemma {:induction false} StartInv(g: Geometry, home: Disk, s: State, step: Step)
    requires Inv(g, home, s) && Enabled(g, s, step) && step.Start?
    ensures Inv(g, home, Do(g, s, step))
  {
  }

  lemma {:induction false} WriteInv(g: Geometry, home: Disk, s: State, step: Step)
    requires Inv(g, home, s) && Enabled(g, s, step) && step.Write?
    ensures s.phase.Idle? && Inv(g, home, Do(g, s, step))
  {
    if WritePasses(g, s) {
      WriteCached(g, s.disk, s, step);
    }
  }

  lemma {:induction false} WriteCached(g: Geometry, d: Disk, s: State, step: Step)
    requires step.Write? && Enabled(g, s, step) && WritePasses(g, s) && Cached(g, d, s) && d == s.disk
    ensures Cached(g, d, Do(g, s, step))
  {
    var t := Do(g, s, step);
    assert t.open[..|s.open|] == s.open;
    if step.block !in s.blocks {
      DistinctPush(s.blocks, step.block);
    }
  }

  lemma {:induction false} EndInv(g: Geometry, home: Disk, s: State, step: Step)
    requires Inv(g, home, s) && Enabled(g, s, step) && step.End?
    ensures s.phase.Idle? && Inv(g, home, Do(g, s, step))
  {
    var t := Do(g, s, step);
    if t.phase.Committing? {
      HomeIsView(g, s.disk);
    }
  }

  lemma {:induction false} CommittedIsCurrent(g: Geometry, d: Disk, blocks: seq<nat>, current: Disk)
    requires Pinned(g, d, blocks, current)
    ensures Committed(g, d, blocks, Values(current, blocks)) == current
  {
    var c := Committed(g, d, blocks, Values(current, blocks));
    assert c.Keys == current.Keys;
    forall b | b in current ensures c[b] == current[b] {
      if b in blocks {
        assert blocks[IndexOf(blocks, b)] == b;
      }
    }
  }

  /** Every prefix of a commit shows the home blocks before it or the cached contents. */
  lemma {:induction false} CommitShows(g: Geometry, before: Disk, blocks: seq<nat>, current: Disk, announce: Block,
      clear: Block, k: nat)
    requires WellFormed(g, before) && Logged(g, before) == [] && Pinned(g, before, blocks, current)
    requires Announces(announce, blocks) && Cleared(clear) && k <= 2 * |blocks| + 2
    ensures var fs := CommitFlushes(g, blocks, Values(current, blocks), announce, clear);
            var e := After(before, fs, k);
            && WellFormed(g, e) && View(g, e) == (if k <= |blocks| then Home(g, before) else current)
            && Logged(g, All(before, fs)) == [] && Home(g, All(before, fs)) == current
  {
    if k <= |blocks| {
      CommitLogging(g, before, blocks, Values(current, blocks), announce, clear, k);
    } else {
      CommitInstalling(g, before, blocks, Values(current, blocks), announce, clear, k);
    }
    CommitDone(g, before, blocks, Values(current, blocks), announce, clear);
    CommittedIsCurrent(g, before, blocks, current);
  }

  /** What the disk shows after one more flush of a commit. */
  lemma {:induction false} CommitFlushView(g: Geometry, home: Disk, s: State)
    requires Inv(g, home, s) && s.phase.Committing?
    ensures var d := After(s.phase.before, PhaseFlushes(g, s), s.done + 1);
            && WellFormed(g, d)
            && View(g, d) == (if s.done == |s.blocks| then ReplayTxn(Replay(home, s.committed), s.open)
                              else Replay(home, s.committed))
  {
    hide View, Home, WellFormed, Loggable, After, CommitFlushes, Replay, ReplayTxn;
    var Committing(before, announce, clear) := s.phase;
    if s.done < |s.blocks| {
      CommitShows(g, before, s.blocks, s.current, announce, clear, s.done);
    }
    CommitShows(g, before, s.blocks, s.current, announce, clear, s.done + 1);
  }

  lemma {:induction false} ReplayPush(home: Disk, txns: seq<seq<OpWrite>>, txn: seq<OpWrite>)
    ensures Replay(home, txns + [txn]) == ReplayTxn(Replay(home, txns), txn)
  {
    assert (txns + [txn])[..|txns|] == txns;
  }

  lemma {:induction false} CommitFlushInv(g: Geometry, home: Disk, s: State)
    requires Inv(g, home, s) && s.phase.Committing? && Enabled(g, s, FlushOne)
    ensures Inv(g, home, DoFlush(g, s))
  {
    hide View, WellFormed, Loggable;
    var Committing(before, announce, clear) := s.phase;
    var fs := PhaseFlushes(g, s);
    CommitFlushView(g, home, s);
    ReplayPush(home, s.committed, s.open);
    if s.done + 1 == |fs| {
      CommitFinal(g, home, s);
    } else {
      var t := DoFlush(g, s);
      assert PhaseFlushes(g, t) == fs;
    }
  }

  lemma {:induction false} CommitFinal(g: Geometry, home: Disk, s: State)
    requires Inv(g, home, s) && s.phase.Committing? && s.done + 1 == |PhaseFlushes(g, s)|
    ensures var d := After(s.phase.before, PhaseFlushes(g, s), s.done + 1);
            && WellFormed(g, d) && Logged(g, d) == [] && Home(g, d) == s.current
  {
    var Committing(before, announce, clear) := s.phase;
    var fs := PhaseFlushes(g, s);
    CommitShows(g, before, s.blocks, s.current, announce, clear, |fs|);
  }

  /** What the disk shows after one more flush of a recovery. */
  lemma {:induction false} RecoveryFlushView(g: Geometry, home: Disk, s: State)
    requires Inv(g, home, s) && s.phase.Recovering?
    ensures var fs := RecoveryFlushes(g, s.phase.before, s.phase.clear);
            var d := After(s.phase.before, fs, s.done + 1);
            && WellFormed(g, d) && View(g, d) == Replay(home, s.committed)
            && (s.done + 1 == |fs| ==> Logged(g, d) == [] && Home(g, d) == Replay(home, s.committed))
  {
    hide View, Home, WellFormed, Loggable, After, RecoveryFlushes, Replay, Logged;
    var Recovering(before, clear) := s.phase;
    RecoveryPrefix(g, before, clear, s.done);
    RecoveryPrefix(g, before, clear, s.done + 1);
    if s.done + 1 == |RecoveryFlushes(g, before, clear)| {
      RecoveryDone(g, before, clear);
    }
  }

  lemma {:induction false} RecoveryFlushInv(g: Geometry, home: Disk, s: State)
    requires Inv(g, home, s) && s.phase.Recovering? && Enabled(g, s, FlushOne)
    ensures Inv(g, home, DoFlush(g, s))
  {
    hide View, RecoveryFlushes, Replay;
    RecoveryFlushView(g, home, s);
    var t := DoFlush(g, s);
    assert t.disk == After(s.phase.before, RecoveryFlushes(g, s.phase.before, s.phase.clear), s.done + 1);
  }

  lemma {:induction false} PowerFailureInv(g: Geometry, home: Disk, s: State, step: Step)
    requires Inv(g, home, s) && Enabled(g, s, step) && step.PowerFailure?
    ensures Inv(g, home, Do(g, s, step))
  {
  }

  lemma {:induction false} StepInv(g: Geometry, home: Disk, s: State, step: Step)
    requires Inv(g, home, s) && Enabled(g, s, step)
    ensures Inv(g, home, Do(g, s, step))
  {
    match step
    case Start(_) => StartInv(g, home, s, step);
    case Write(_, _, _) => WriteInv(g, home, s, step);
    case End(_, _, _) => EndInv(g, home, s, step);
    case FlushOne => if s.phase.Committing? { CommitFlushInv(g, home, s); } else { RecoveryFlushInv(g, home, s); }
    case PowerFailure(_) => PowerFailureInv(g, home, s, step);
  }

  lemma {:induction false} WriteWhole(g: Geometry, s: State, step: Step)
    requires step.Write? && Enabled(g, s, step) && WritePasses(g, s) && Whole(s)
    ensures Whole(Do(g, s, step))
  {
    var t := Do(g, s, step);
    var w := OpWrite(step.op, step.block, step.value);
    forall op
      ensures By(t.open, op) == By(s.open, op) + (if step.op == op then [w] else [])
      ensures By(t.history, op) == By(s.history, op) + (if step.op == op then [w] else [])
    {
      ByPush(s.open, w, op);
      ByPush(s.history, w, op);
    }
    assert t.ops.Keys == s.ops.Keys && t.committed == s.committed && t.used == s.used;
  }

  lemma {:induction false} AnnounceWhole(s: State, t: State)
    requires Whole(s) && s.ops == map[]
    requires t.committed == s.committed + [s.open] && t.open == []
    requires t.ops == map[] && t.used == s.used && t.history == s.history
    ensures Whole(t)
  {
  }

  lemma {:induction false} StepWhole(g: Geometry, s: State, step: Step)
    requires (s.phase.Committing? ==> s.ops == map[]) && Enabled(g, s, step) && Whole(s)
    ensures Whole(Do(g, s, step))
  {
    var t := Do(g, s, step);
    match step
    case Start(op) => assert op !in s.used;
    case Write(_, _, _) => if WritePasses(g, s) { WriteWhole(g, s, step); }
    case End(_, _, _) =>
    case FlushOne => if s.phase.Committing? && s.done == |s.blocks| { AnnounceWhole(s, t); }
    case PowerFailure(_) =>
  }

  lemma {:induction false} RunInv(g: Geometry, home: Disk, s: State, steps: seq<Step>)
    requires Inv(g, home, s) && Whole(s) && ValidRun(g, s, steps)
    ensures Inv(g, home, Run(g, s, steps)) && Whole(Run(g, s, steps))
    decreases |steps|
  {
    if steps != [] {
      StepInv(g, home, s, steps[0]);
      StepWhole(g, s, steps[0]);
      RunInv(g, home, Do(g, s, steps[0]), steps[1..]);
    }
  }

  /** Operation atomicity: after any run from a mounted disk, recovery from a crash at this very point (however often
      the recovery itself is cut short) yields the home blocks after a whole number of transactions; every operation
      with a committed write has ended, and all its writes ever are in one transaction. */
  lemma {:induction false} RunsAreAtomic(g: Geometry, d: Disk, steps: seq<Step>, crashes: seq<Crash>, clear: Block)
    requires WellFormed(g, d) && Logged(g, d) == [] && ValidRun(g, Mounted(g, d), steps) && Cleared(clear)
    requires forall i :: 0 <= i < |crashes| ==> Cleared(crashes[i].clear)
    ensures var s := Run(g, Mounted(g, d), steps);
            && WellFormed(g, s.disk)
            && var e := CrashedRecoveries(g, s.disk, crashes);
            && WellFormed(g, e)
            && Home(g, All(e, RecoveryFlushes(g, e, clear))) == Replay(Home(g, d), s.committed)
    ensures var s := Run(g, Mounted(g, d), steps);
            forall i, op {:trigger By(s.committed[i], op)} :: 0 <= i < |s.committed| && By(s.committed[i], op) != [] ==>
              op !in s.ops && By(s.history, op) == By(s.committed[i], op)
    ensures var s := Run(g, Mounted(g, d), steps);
            s.phase.Committing? ==> s.ops == map[]
    ensures var s := Run(g, Mounted(g, d), steps);
            s.phase.Idle? ==> s.current == ReplayTxn(Replay(Home(g, d), s.committed), s.open)
  {
    MountedInv(g, d);
    RunInv(g, Home(g, d), Mounted(g, d), steps);
    var s := Run(g, Mounted(g, d), steps);
    RepeatedRecovery(g, s.disk, crashes, clear);
    if s.phase.Idle? {
      HomeIsView(g, s.disk);
    }
  }

  /** The commits only grow: a later state's committed transactions extend an earlier one's. */
  lemma {:induction false} CommitsExtend(g: Geometry, s: State, steps: seq<Step>)
    requires ValidRun(g, s, steps)
    ensures s.committed <= Run(g, s, steps).committed
    decreases |steps|
  {
    if steps != [] {
      CommitsExtend(g, Do(g, s, steps[0]), steps[1..]);
    }
  }
}
