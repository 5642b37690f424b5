/** Log space: the reservation that `is_full` makes for every outstanding operation, and what it is worth. */
module LogSpace {
  import opened Blocks
  import opened LogCrash
  import opened LogRuns

  /** The slots that the outstanding operations may still claim. */
  ghost function Reserve(ops: map<OpId, set<nat>>): int {
    if ops == map[] then 0 else
      var op :| op in ops;
      MAXOPBLOCKS - |ops[op]| + Reserve(ops - {op})
  }

  lemma {:induction false} ReserveSplit(ops: map<OpId, set<nat>>, op: OpId)
    requires op in ops
    ensures Reserve(ops) == MAXOPBLOCKS - |ops[op]| + Reserve(ops - {op})
    decreases |ops|
  {
    var p :| p in ops && Reserve(ops) == MAXOPBLOCKS - |ops[p]| + Reserve(ops - {p});
    if p != op {
      assert ops - {p} - {op} == ops - {op} - {p};
      ReserveSplit(ops - {p}, op);
      ReserveSplit(ops - {op}, p);
    }
  }

  lemma {:induction false} ReserveBounds(ops: map<OpId, set<nat>>)
    requires forall op :: op in ops ==> |ops[op]| <= MAXOPBLOCKS
    ensures 0 <= Reserve(ops) <= |ops| * MAXOPBLOCKS
    decreases |ops|
  {
    if ops != map[] {
      var op :| op in ops;
      ReserveSplit(ops, op);
      ReserveBounds(ops - {op});
      assert |ops - {op}| == |ops| - 1;
    }
  }

  /** Each operation of the run logs at most `k` distinct blocks. */
  ghost predicate WithinBudget(g: Geometry, s: State, steps: seq<Step>, k: nat)
    requires ValidRun(g, s, steps)
    decreases |steps|
  {
    steps == [] ||
    ((steps[0].Write? ==> |s.ops[steps[0].op] + {steps[0].block}| <= k)
     && WithinBudget(g, Do(g, s, steps[0]), steps[1..], k))
  }

  ghost predicate SpaceInv(s: State, k: nat) {
    !s.phase.Panicked? ==>
      && (forall op :: op in s.ops ==> |s.ops[op]| <= k)
      && (forall op :: op in s.ops ==> forall b :: b in s.ops[op] ==> b in s.blocks)
      && |s.blocks| + Reserve(s.ops) <= LOGSIZE
  }

  lemma {:induction false} WriteSpace(g: Geometry, s: State, step: Step, k: nat)
    requires SpaceInv(s, k) && k <= MAXOPBLOCKS && Enabled(g, s, step) && step.Write?
    requires |s.ops[step.op] + {step.block}| <= k
    ensures SpaceInv(Do(g, s, step), k)
  {
    var t := Do(g, s, step);
    if WritePasses(g, s) {
      ReserveSplit(s.ops, step.op);
      ReserveSplit(t.ops, step.op);
      assert t.ops - {step.op} == s.ops - {step.op};
      if step.block !in s.blocks {
        assert |t.ops[step.op]| == |s.ops[step.op]| + 1;
      } else if step.block in s.ops[step.op] {
        assert t.ops[step.op] == s.ops[step.op];
      } else {
        assert |t.ops[step.op]| == |s.ops[step.op]| + 1;
      }
    }
  }

  lemma {:induction false} StartSpace(g: Geometry, s: State, step: Step, k: nat)
    requires SpaceInv(s, k) && k <= MAXOPBLOCKS && Enabled(g, s, step) && step.Start? && s.ops.Keys <= s.used
    ensures SpaceInv(Do(g, s, step), k)
  {
    hide PhaseFlushes;
    var t := Do(g, s, step);
    ReserveBounds(s.ops);
    ReserveSplit(t.ops, step.op);
    assert t.ops - {step.op} == s.ops;
  }

  lemma {:induction false} StepSpace(g: Geometry, s: State, step: Step, k: nat)
    requires SpaceInv(s, k) && k <= MAXOPBLOCKS && Enabled(g, s, step) && s.ops.Keys <= s.used
    requires s.phase.Panicked? || s.phase.Idle? || s.ops == map[]
    requires step.Write? ==> |s.ops[step.op] + {step.block}| <= k
    ensures SpaceInv(Do(g, s, step), k)
  {
    match step
    case Start(_) => StartSpace(g, s, step, k);
    case Write(_, _, _) => WriteSpace(g, s, step, k);
    case End(op, _, _) => ReserveSplit(s.ops, op);
    case FlushOne =>
    case PowerFailure(_) =>
  }

  lemma {:induction false} RunSpace(g: Geometry, home: Disk, s: State, steps: seq<Step>, k: nat)
    requires Inv(g, home, s) && Whole(s) && ValidRun(g, s, steps)
    requires SpaceInv(s, k) && k <= MAXOPBLOCKS && WithinBudget(g, s, steps, k)
    ensures SpaceInv(Run(g, s, steps), k)
    decreases |steps|
  {
    if steps != [] {
      StepInv(g, home, s, steps[0]);
      StepWhole(g, s, steps[0]);
      StepSpace(g, s, steps[0], k);
      RunSpace(g, home, Do(g, s, steps[0]), steps[1..], k);
    }
  }

  /** `step` is a `log::write` that may come after the run `steps`, every operation keeping to `k` blocks. */
  ghost predicate LegalWrite(g: Geometry, d: Disk, steps: seq<Step>, step: Step, k: nat) {
    && WellFormed(g, d) && Logged(g, d) == [] && ValidRun(g, Mounted(g, d), steps)
    && WithinBudget(g, Mounted(g, d), steps, k)
    && step.Write? && Enabled(g, Run(g, Mounted(g, d), steps), step)
    && |Run(g, Mounted(g, d), steps).ops[step.op] + {step.block}| <= k
  }

  ghost predicate Passes(g: Geometry, d: Disk, steps: seq<Step>) {
    ValidRun(g, Mounted(g, d), steps) && WritePasses(g, Run(g, Mounted(g, d), steps))
  }

  ghost predicate Appends(g: Geometry, d: Disk, steps: seq<Step>, step: Step) {
    ValidRun(g, Mounted(g, d), steps) && step.Write? && step.block !in Run(g, Mounted(g, d), steps).blocks
  }

  /** The log never runs out: with room for LOGSIZE blocks, every write that needs a new slot finds one, and so does
      every write at all of an operation that stays one block below its limit. */
  lemma {:induction false} SpaceSuffices(g: Geometry, d: Disk, steps: seq<Step>, step: Step, k: nat)
    requires g.size > LOGSIZE && k <= MAXOPBLOCKS && LegalWrite(g, d, steps, step, k)
    ensures Appends(g, d, steps, step) || k < MAXOPBLOCKS ==> Passes(g, d, steps)
    ensures |Run(g, Mounted(g, d), steps).blocks| <= LOGSIZE
  {
    hide WellFormed, Logged, ValidRun, WithinBudget, Run, Inv, Whole;
    var s := Run(g, Mounted(g, d), steps);
    MountedInv(g, d);
    RunSpace(g, Home(g, d), Mounted(g, d), steps, k);
    ReserveSplit(s.ops, step.op);
    ReserveBounds(s.ops - {step.op});
    ReserveBounds(s.ops);
    if step.block !in s.blocks {
      assert |s.ops[step.op] + {step.block}| == |s.ops[step.op]| + 1;
    }
  }

  // Where the space does not suffice: three operations that log ten blocks each.

  lemma {:induction false} RunPush(g: Geometry, s: State, steps: seq<Step>, step: Step, k: nat)
    requires ValidRun(g, s, steps) && WithinBudget(g, s, steps, k) && Enabled(g, Run(g, s, steps), step)
    requires step.Write? ==> |Run(g, s, steps).ops[step.op] + {step.block}| <= k
    ensures ValidRun(g, s, steps + [step]) && WithinBudget(g, s, steps + [step], k)
    ensures Run(g, s, steps + [step]) == Do(g, Run(g, s, steps), step)
    decreases |steps|
  {
    if steps == [] {
      assert steps + [step] == [step] && [step][1..] == [];
    } else {
      assert (steps + [step])[0] == steps[0] && (steps + [step])[1..] == steps[1..] + [step];
      RunPush(g, Do(g, s, steps[0]), steps[1..], step, k);
    }
  }

  function Blank(n: nat): (d: Disk)
    ensures forall b :: (b in d <==> 0 <= b < n) && (b in d ==> d[b] == ZeroBlock())
  {
    if n == 0 then map[] else Blank(n - 1)[n - 1 := ZeroBlock()]
  }

  function BlankDisk(g: Geometry): Disk {
    Blank(g.start + g.size + LOGSIZE + 1)
  }

  lemma {:induction false} BlankMounts(g: Geometry)
    requires g.size > 0
    ensures WellFormed(g, BlankDisk(g)) && Logged(g, BlankDisk(g)) == []
  {
    ZeroWord(0);
    NothingLogged(g, BlankDisk(g), BlankDisk(g));
  }

  /** How many of the first `m` blocks operation `op` has logged when each fills up before the next begins. */
  function Share(op: OpId, m: nat): nat {
    if m <= 10 * op then 0 else if m >= 10 * op + 10 then 10 else m - 10 * op
  }

  ghost predicate Filled(g: Geometry, s: State, m: nat) {
    && s.phase.Idle? && s.disk == BlankDisk(g) && |s.blocks| == m <= LOGSIZE
    && (forall op :: 0 <= op < 3 ==> op in s.ops && |s.ops[op]| == Share(op, m))
    && (forall b :: b in s.blocks ==> b < g.start + g.size + m)
    && (forall op, b :: op in s.ops && b in s.ops[op] ==> g.start + g.size <= b < g.start + g.size + m)
  }

  /** After `j` operations have started, none of which has logged anything. */
  ghost predicate Opened(g: Geometry, s: State, j: nat) {
    && s.phase.Idle? && s.disk == BlankDisk(g) && s.blocks == [] && |s.ops| == j
    && (forall op :: op in s.used || op in s.ops ==> op < j)
    && (forall op :: 0 <= op < j ==> op in s.ops)
    && (forall op :: op in s.ops ==> s.ops[op] == {})
  }

  lemma {:induction false} OpenMore(g: Geometry, s: State, j: nat)
    requires Opened(g, s, j) && j < 3
    ensures Enabled(g, s, Start(j)) && Opened(g, Do(g, s, Start(j)), j + 1)
  {
    hide BlankDisk, PhaseFlushes;
  }

  lemma {:induction false} OpenedIsFilled(g: Geometry, s: State)
    requires Opened(g, s, 3)
    ensures Filled(g, s, 0)
  {
    hide BlankDisk;
  }

  lemma {:induction false} Open(g: Geometry, j: nat) returns (steps: seq<Step>)
    requires g.size > 0 && j <= 3
    ensures var d := BlankDisk(g);
            && ValidRun(g, Mounted(g, d), steps) && WithinBudget(g, Mounted(g, d), steps, MAXOPBLOCKS)
            && Opened(g, Run(g, Mounted(g, d), steps), j)
  {
    if j == 0 {
      steps := [];
    } else {
      steps := Open(g, j - 1);
      OpenMore(g, Run(g, Mounted(g, BlankDisk(g)), steps), j - 1);
      RunPush(g, Mounted(g, BlankDisk(g)), steps, Start(j - 1), MAXOPBLOCKS);
      steps := steps + [Start(j - 1)];
    }
  }

  /** The operation whose turn it is logs the next block. */
  lemma {:induction false} FillMore(g: Geometry, s: State, m: nat, op: OpId)
    requires Filled(g, s, m) && m < LOGSIZE && 10 * op <= m < 10 * op + 10
    ensures var step := Write(op, g.start + g.size + m, ZeroBlock());
            && Enabled(g, s, step) && |s.ops[op] + {step.block}| <= MAXOPBLOCKS && step.block !in s.blocks
            && (m < g.size - 1 ==> Filled(g, Do(g, s, step), m + 1))
  {
    var b := g.start + g.size + m;
    AddOne(s.ops[op], b);
    if m < g.size - 1 {
      FillOne(g, s, m, op);
    }
  }

  lemma {:induction false} FillOne(g: Geometry, s: State, m: nat, op: OpId)
    requires Filled(g, s, m) && m < LOGSIZE && m < g.size - 1 && 10 * op <= m < 10 * op + 10 && op in s.ops
    ensures Filled(g, DoWrite(g, s, op, g.start + g.size + m, ZeroBlock()), m + 1)
  {
    hide BlankDisk;
    AddOne(s.ops[op], g.start + g.size + m);
  }

  lemma {:induction false} AddOne(x: set<nat>, b: nat)
    ensures |x + {b}| == if b in x then |x| else |x| + 1
  {
    if b in x {
      assert x + {b} == x;
    }
  }

  lemma {:induction false} Fill(g: Geometry, m: nat) returns (steps: seq<Step>)
    requires m <= LOGSIZE && m < g.size
    ensures var d := BlankDisk(g);
            && ValidRun(g, Mounted(g, d), steps) && WithinBudget(g, Mounted(g, d), steps, MAXOPBLOCKS)
            && Filled(g, Run(g, Mounted(g, d), steps), m)
  {
    hide WellFormed, Logged, ValidRun, WithinBudget, Run, BlankDisk, Enabled, Do;
    if m == 0 {
      steps := Open(g, 3);
      OpenedIsFilled(g, Run(g, Mounted(g, BlankDisk(g)), steps));
    } else {
      steps := Fill(g, m - 1);
      var d := BlankDisk(g);
      FillMore(g, Run(g, Mounted(g, d), steps), m - 1, (m - 1) / 10);
      var step := Write((m - 1) / 10, g.start + g.size + m - 1, ZeroBlock());
      RunPush(g, Mounted(g, d), steps, step, MAXOPBLOCKS);
      steps := steps + [step];
    }
  }

  lemma {:induction false} ThirtiethBlockFails(g: Geometry) returns (steps: seq<Step>, step: Step)
    requires 0 < g.size <= LOGSIZE
    ensures LegalWrite(g, BlankDisk(g), steps, step, MAXOPBLOCKS)
    ensures Appends(g, BlankDisk(g), steps, step) && !Passes(g, BlankDisk(g), steps)
  {
    hide WellFormed, Logged, ValidRun, WithinBudget, Run, BlankDisk;
    var m := g.size - 1;
    steps := Fill(g, m);
    BlankMounts(g);
    var s := Run(g, Mounted(g, BlankDisk(g)), steps);
    step := Write(m / 10, g.start + g.size + m, ZeroBlock());
    FillMore(g, s, m, m / 10);
  }

  /** Every write that needs a new slot passes in every run, if and only if the superblock gives the log more than
      LOGSIZE blocks; mkfs gives it exactly LOGSIZE, so the thirtieth block fails the assertion. */
  lemma {:induction false} AppendsPassIff(g: Geometry)
    requires g.size > 0
    ensures (forall d, steps, step ::
               LegalWrite(g, d, steps, step, MAXOPBLOCKS) && Appends(g, d, steps, step) ==> Passes(g, d, steps))
            <==> g.size > LOGSIZE
  {
    hide LegalWrite, Appends, Passes;
    if g.size > LOGSIZE {
      forall d, steps, step | LegalWrite(g, d, steps, step, MAXOPBLOCKS) && Appends(g, d, steps, step)
        ensures Passes(g, d, steps)
      {
        SpaceSuffices(g, d, steps, step, MAXOPBLOCKS);
      }
    } else {
      var steps, step := ThirtiethBlockFails(g);
    }
  }

  lemma {:induction false} FullRewriteFails(g: Geometry, k: nat) returns (steps: seq<Step>, step: Step)
    requires g.size > LOGSIZE && k >= MAXOPBLOCKS
    ensures LegalWrite(g, BlankDisk(g), steps, step, k) && !Passes(g, BlankDisk(g), steps)
  {
    hide WellFormed, Logged, ValidRun, WithinBudget, Run, BlankDisk;
    var m := LOGSIZE;
    steps := Fill(g, m);
    BlankMounts(g);
    var s := Run(g, Mounted(g, BlankDisk(g)), steps);
    BudgetGrows(g, Mounted(g, BlankDisk(g)), steps, MAXOPBLOCKS, k);
    var b := FullRewrite(g, s);
    step := Write(2, b, ZeroBlock());
  }

  lemma {:induction false} FullRewrite(g: Geometry, s: State) returns (b: nat)
    requires Filled(g, s, LOGSIZE)
    ensures Enabled(g, s, Write(2, b, ZeroBlock())) && |s.ops[2] + {b}| == MAXOPBLOCKS
  {
    assert |s.ops[2]| == 10;
    b :| b in s.ops[2];
    assert s.ops[2] + {b} == s.ops[2];
  }

  /** The capacity assertion precedes absorption: rewriting a logged block is safe in every run, if and only if
      operations stay below the MAXOPBLOCKS that `is_full` reserves for them. */
  lemma {:induction false} WritesPassIff(g: Geometry, k: nat)
    requires g.size > LOGSIZE
    ensures (forall d, steps, step :: LegalWrite(g, d, steps, step, k) ==> Passes(g, d, steps)) <==> k < MAXOPBLOCKS
  {
    hide LegalWrite, Passes;
    if k < MAXOPBLOCKS {
      forall d, steps, step | LegalWrite(g, d, steps, step, k) ensures Passes(g, d, steps) {
        SpaceSuffices(g, d, steps, step, k);
      }
    } else {
      var steps, step := FullRewriteFails(g, k);
    }
  }

  lemma {:induction false} BudgetGrows(g: Geometry, s: State, steps: seq<Step>, j: nat, k: nat)
    requires ValidRun(g, s, steps) && WithinBudget(g, s, steps, j) && j <= k
    ensures WithinBudget(g, s, steps, k)
    decreases |steps|
  {
    if steps != [] {
      BudgetGrows(g, Do(g, s, steps[0]), steps[1..], j, k);
    }
  }
}
