/** What holds in every run of the process system, on any number of CPUs. */
module ProcessResults {
  import opened Options
  import opened Process
  import opened ProcessRuns
  import opened ProcessWait

  // ---- process ids -------------------------------------------------------------------------------------------

  ghost predicate Pids(s: State) {
    && (forall p :: 0 <= p < |s.procs| && s.procs[p].state != Unused ==>
      s.procs[p].pid < s.nextPid && s.procs[p].pid !in s.reaped)
    && (forall p, q :: 0 <= p < q < |s.procs| && s.procs[p].state != Unused && s.procs[q].state != Unused ==>
      s.procs[p].pid != s.procs[q].pid)
    && (forall x :: x in s.reaped ==> x < s.nextPid)
  }

  ghost predicate SamePids(s: State, r: State) {
    && |r.procs| == |s.procs| && r.nextPid == s.nextPid && r.reaped == s.reaped
    && (forall p :: 0 <= p < |s.procs| ==> r.procs[p].pid == s.procs[p].pid)
    && (forall p :: 0 <= p < |s.procs| ==> r.procs[p].state != Unused ==> s.procs[p].state != Unused)
  }

  lemma {:induction false} KeepPids(s: State, r: State)
    requires Pids(s) && SamePids(s, r)
    ensures Pids(r)
  {
  }

  lemma {:induction false} ReapPids(s: State, c: nat)
    requires Pids(s) && Runner(s, c) && CanScan(s, s.cpus[c].p)
      && ZombieChild(s, s.procs[s.cpus[c].p].pc.i, s.cpus[c].p)
    ensures Pids(DoScan(s, s.cpus[c].p))
  {
  }

  lemma {:induction false} ForkPids(s: State, c: nat, q: nat)
    requires Pids(s) && Runner(s, c) && q < |s.procs| && q != s.cpus[c].p
    ensures Pids(DoFork(s, c, s.cpus[c].p, q))
  {
  }

  // ---- every step keeps the invariant ------------------------------------------------------------------------

  ghost predicate All(s: State, init: nat) {
    Core(s) && Wait(s, init) && Pids(s)
  }

  ghost predicate Scheduling(step: Step) {
    step.Dispatch? || step.Assign? || step.Release? || step.WakeOne? || step.Kill?
  }

  lemma {:induction false} SchedulingCore(s: State, init: nat, step: Step)
    requires Core(s) && Enabled(s, init, step) && Scheduling(step)
    ensures Core(Next(s, init, step))
  {
    hide Core;
    match step
    case Dispatch(c, p) => DispatchCore(s, c, p);
    case Assign(c) => AssignCore(s, c);
    case Release(c) => ReleaseCore(s, c);
    case WakeOne(p, token) => WakeCore(s, p, Woken(s.procs[p].state, Other(token)), s.procs[p].killed);
    case Kill(p) => WakeCore(s, p, if s.procs[p].state.Sleeping? then Runnable else s.procs[p].state, true);
  }

  ghost predicate Switching(step: Step) {
    step.Yield? || step.SleepOn? || step.SleepSwitch? || step.DieSwitch?
  }

  lemma {:induction false} SamePc(s: State, p: nat)
    requires p < |s.procs|
    ensures SetPc(s, p, s.procs[p].pc) == s
  {
    assert s.procs[p := s.procs[p]] == s.procs;
  }

  lemma {:induction false} SwitchingInv(s: State, init: nat, step: Step)
    requires Core(s) && Wait(s, init) && Enabled(s, init, step) && Switching(step)
    ensures Core(Next(s, init, step)) && Wait(Next(s, init, step), init)
  {
    hide Safe, WaitHeld, Wait;
    var c := match step case Yield(c) => c case SleepOn(c,
        _) => c case SleepSwitch(c) => c case DieSwitch(c) => c case _ => 0;
    RunnerFacts(s, c);
    var p := s.cpus[c].p;
    var pc := s.procs[p].pc;
    match step
    case Yield(_) =>
      LeaveCore(s, c, p, Runnable, pc);
      LeaveQuiet(s, init, c, Runnable, pc);
      SamePc(Leave(s, c, p, Runnable), p);
    case SleepOn(_, token) =>
      LeaveCore(s, c, p, Sleeping(Other(token)), pc);
      LeaveQuiet(s, init, c, Sleeping(Other(token)), pc);
      SamePc(Leave(s, c, p, Sleeping(Other(token))), p);
    case SleepSwitch(_) =>
      LeaveCore(s, c, p, Sleeping(Child(p)), SleepDone);
      LeaveQuiet(s, init, c, Sleeping(Child(p)), SleepDone);
    case DieSwitch(_) =>
      assert s.procs[p].state == Zombie by { DiedIsZombie(s, c); }
      LeaveCore(s, c, p, Zombie, Dead);
      LeaveQuiet(s, init, c, Zombie, Dead);
  }

  lemma {:induction false} DiedIsZombie(s: State, c: nat)
    requires Safe(s) && Runner(s, c) && (s.procs[s.cpus[c].p].pc == DiedReleased || s.procs[s.cpus[c].p].pc == Died)
    ensures s.procs[s.cpus[c].p].state == Zombie
  {
    assert SlotOk(s, c);
  }

  ghost predicate Waiting(step: Step) {
    step.EnterWait? || step.ScanOne? || step.ScanFault? || step.ScanEnd? || step.SleepRelease?
  }

  lemma {:induction false} WaitingCore(s: State, init: nat, step: Step)
    requires Core(s) && Enabled(s, init, step) && Waiting(step)
    ensures Core(Next(s, init, step))
  {
    hide Safe;
    match step
    case EnterWait(c) => MoveCore(s, c, s.cpus[c].p, Scan(0, false), Some(s.cpus[c].p));
    case ScanOne(c) =>
      var p := s.cpus[c].p;
      var i := s.procs[p].pc.i;
      if s.procs[i].parent == Some(p) && s.procs[i].state == Zombie {
        ReapCore(s, c, p);
      } else {
        MoveCore(s, c, p, Scan(i + 1, s.procs[i].parent == Some(p) || s.procs[p].pc.kids), Some(p));
      }
    case ScanFault(c) => MoveCore(s, c, s.cpus[c].p, Kernel, None);
    case ScanEnd(c) =>
      if MustSleep(s, s.cpus[c].p) {
        RunnerFacts(s, c);
        OwnCore(s, c, s.cpus[c].p, SleepLocked, Running, Some(s.cpus[c].p));
      } else {
        MoveCore(s, c, s.cpus[c].p, Kernel, None);
      }
    case SleepRelease(c) =>
      RunnerFacts(s, c);
      OwnCore(s, c, s.cpus[c].p, SleepReleased, Running, None);
  }

  lemma {:induction false} WaitingWait(s: State, init: nat, step: Step)
    requires Core(s) && Wait(s, init) && Enabled(s, init, step) && Waiting(step)
    ensures Wait(Next(s, init, step), init)
  {
    hide Core, Wait;
    match step
    case EnterWait(c) => EnterWaitWait(s, init, c);
    case ScanOne(c) =>
      if ZombieChild(s, s.procs[s.cpus[c].p].pc.i, s.cpus[c].p) {
        ReapWait(s, init, c);
      } else {
        ScanPastWait(s, init, c);
      }
    case ScanFault(c) => ScanFaultWait(s, init, c);
    case ScanEnd(c) => ScanEndWait(s, init, c);
    case SleepRelease(c) => SleepReleaseWait(s, init, c);
  }

  ghost predicate Exits(step: Step) {
    step.EnterExit? || step.ReparentOne? || step.WakeInitOne? || step.WakeParentOne? || step.TakeOwnLock?
        || step.DieRelease?
  }

  /** A slot of a wakeup by the holder of the wait lock, and the move to the next one. */
  lemma {:induction false} WakeMoveCore(s: State, c: nat, p: nat, j: nat, token: Token, pc: Pc)
    requires Core(s) && RunsOn(s, c, p) && CanWake(s, p, j) && s.waitLock == Some(p)
    requires Plain(s.procs[p].pc) && Plain(pc) && HoldsWait(pc)
    ensures Core(SetPc(WakeSlot(s, p, j, token), p, pc))
  {
    hide Safe, WaitHeld;
    if j != p {
      WakeCore(s, j, Woken(s.procs[j].state, token), s.procs[j].killed);
    }
    MoveCore(WakeSlot(s, p, j, token), c, p, pc, Some(p));
  }

  lemma {:induction false} WakeInitCore(s: State, init: nat, c: nat)
    requires Core(s) && Enabled(s, init, WakeInitOne(c))
    ensures Core(DoWakeInit(s, init, s.cpus[c].p))
  {
    hide Safe;
    var p := s.cpus[c].p;
    if s.procs[p].pc.j < |s.procs| {
      WakeMoveCore(s, c, p, s.procs[p].pc.j, Child(init), WakeInit(s.procs[p].pc.i, s.procs[p].pc.j + 1));
    } else {
      MoveCore(s, c, p, Reparent(s.procs[p].pc.i + 1), Some(p));
    }
  }

  lemma {:induction false} WakeParentCore(s: State, init: nat, c: nat)
    requires Core(s) && Enabled(s, init, WakeParentOne(c))
    ensures Core(DoWakeParent(s, s.cpus[c].p))
  {
    hide Safe;
    var p := s.cpus[c].p;
    var j := s.procs[p].pc.j;
    if j < |s.procs| && s.procs[p].parent.Some? {
      WakeMoveCore(s, c, p, j, Child(s.procs[p].parent.value), WakeParent(j + 1));
    } else {
      MoveCore(s, c, p, if j < |s.procs| then WakeParent(j + 1) else Dying, Some(p));
    }
  }

  lemma {:induction false} ExitsCore(s: State, init: nat, step: Step)
    requires Core(s) && Wait(s, init) && Enabled(s, init, step) && Exits(step)
    ensures Core(Next(s, init, step))
  {
    hide Safe, NoLost, HolderOk;
    match step
    case EnterExit(c) => MoveCore(s, c, s.cpus[c].p, Reparent(0), Some(s.cpus[c].p));
    case ReparentOne(c) => ReparentCore(s, init, c);
    case WakeInitOne(c) => WakeInitCore(s, init, c);
    case WakeParentOne(c) => WakeParentCore(s, init, c);
    case TakeOwnLock(c) => OwnCore(s, c, s.cpus[c].p, Died, Zombie, Some(s.cpus[c].p));
    case DieRelease(c) =>
      RunnerFacts(s, c);
      DiedIsZombie(s, c);
      OwnCore(s, c, s.cpus[c].p, DiedReleased, Zombie, None);
  }

  lemma {:induction false} HasParent(s: State, i: nat)
    requires Safe(s) && i < |s.procs| && s.procs[i].parent.Some?
    ensures s.procs[i].state != Unused
  {
    assert HomeOk(s, i);
    assert s.procs[i].home.Some? ==> SlotOk(s, s.procs[i].home.value);
  }

  lemma {:induction false} ReparentCore(s: State, init: nat, c: nat)
    requires Core(s) && Wait(s, init) && Enabled(s, init, ReparentOne(c))
    ensures Core(DoReparent(s, init, s.cpus[c].p))
  {
    hide Safe, NoLost, HolderOk, Family;
    var p := s.cpus[c].p;
    var i := s.procs[p].pc.i;
    if i < |s.procs| && s.procs[i].parent == Some(p) {
      HasParent(s, i);
      NotOwnParent(s, init, i);
      ParentCore(s, i, Some(init));
      MoveCore(Put(s, i, s.procs[i].(parent := Some(init))), c, p, WakeInit(i, 0), Some(p));
    } else {
      MoveCore(s, c, p, if i < |s.procs| then Reparent(i + 1) else WakeParent(0), Some(p));
    }
  }

  lemma {:induction false} ExitsWait(s: State, init: nat, step: Step)
    requires Core(s) && Wait(s, init) && Enabled(s, init, step) && Exits(step)
    ensures Wait(Next(s, init, step), init)
  {
    hide Core, Wait;
    match step
    case EnterExit(c) => EnterExitWait(s, init, c);
    case ReparentOne(c) =>
      var i := s.procs[s.cpus[c].p].pc.i;
      if i < |s.procs| && s.procs[i].parent == Some(s.cpus[c].p) {
        GiveAwayWait(s, init, c);
      } else {
        ReparentWait(s, init, c);
      }
    case WakeInitOne(c) =>
      if s.procs[s.cpus[c].p].pc.j < |s.procs| {
        WakeInitWait(s, init, c);
      } else {
        WakeInitEndWait(s, init, c);
      }
    case WakeParentOne(c) =>
      if s.procs[s.cpus[c].p].pc.j < |s.procs| {
        WakeParentWait(s, init, c);
      } else {
        WakeParentEndWait(s, init, c);
      }
    case TakeOwnLock(c) => DieWait(s, init, c);
    case DieRelease(c) => DieReleaseWait(s, init, c);
  }

  lemma {:induction false} ForksInv(s: State, init: nat, step: Step)
    requires Core(s) && Wait(s, init) && Enabled(s, init, step)
      && (step.Fork? || step.ForkUnlock? || step.ForkLink? || step.ForkDone?)
    ensures Core(Next(s, init, step)) && Wait(Next(s, init, step), init)
  {
    hide Core, Wait;
    match step
    case Fork(c, q) =>
      ForkCore(s, c, s.cpus[c].p, q);
      ForkQuiet(s, init, c, q);
    case ForkUnlock(c) =>
      ForkUnlockCore(s, c, s.cpus[c].p);
      ForkUnlockQuiet(s, init, c);
    case ForkLink(c) =>
      ForkLinkCore(s, c, s.cpus[c].p);
      ForkLinkWait(s, init, c);
    case ForkDone(c) =>
      ForkDoneCore(s, c, s.cpus[c].p);
      ForkDoneQuiet(s, init, c);
  }

  lemma {:induction false} StepPids(s: State, init: nat, step: Step)
    requires All(s, init) && Enabled(s, init, step)
    ensures Pids(Next(s, init, step))
  {
    hide Pids, Wait, Safe, WaitHeld;
    if step.ScanOne? && ZombieChild(s, s.procs[s.cpus[step.c].p].pc.i, s.cpus[step.c].p) {
      ReapPids(s, step.c);
    } else if step.Fork? {
      RunnerFacts(s, step.c);
      ForkPids(s, step.c, step.child);
    } else {
      OtherPids(s, init, step);
      KeepPids(s, Next(s, init, step));
    }
  }

  lemma {:induction false} PlainPids(s: State, init: nat, step: Step)
    requires Enabled(s, init, step) && Scheduling(step)
    ensures SamePids(s, Next(s, init, step))
  {
  }

  lemma {:induction false} SwitchingPids(s: State, init: nat, step: Step)
    requires Enabled(s, init, step) && Switching(step) && s.procs[s.cpus[step.c].p].state != Unused
    ensures SamePids(s, Next(s, init, step))
  {
  }

  lemma {:induction false} WaitingPids(s: State, init: nat, step: Step)
    requires Enabled(s, init, step) && Waiting(step)
    requires !(step.ScanOne? && ZombieChild(s, s.procs[s.cpus[step.c].p].pc.i, s.cpus[step.c].p))
    ensures SamePids(s, Next(s, init, step))
  {
  }

  lemma {:induction false} ExitsPids(s: State, init: nat, step: Step)
    requires Enabled(s, init, step) && Exits(step) && s.procs[s.cpus[step.c].p].state != Unused
    ensures SamePids(s, Next(s, init, step))
  {
  }

  lemma {:induction false} ForksPids(s: State, init: nat, step: Step)
    requires Enabled(s, init, step) && (step.ForkUnlock? || step.ForkLink? || step.ForkDone?)
    requires step.ForkDone? ==> s.procs[s.procs[s.cpus[step.c].p].pc.child].state != Unused
    ensures SamePids(s, Next(s, init, step))
  {
  }

  lemma {:induction false} OtherPids(s: State, init: nat, step: Step)
    requires Safe(s) && Enabled(s, init, step) && !step.Fork?
    requires !(step.ScanOne? && ZombieChild(s, s.procs[s.cpus[step.c].p].pc.i, s.cpus[step.c].p))
    ensures SamePids(s, Next(s, init, step))
  {
    hide Safe, Next, SamePids;
    if Scheduling(step) {
      PlainPids(s, init, step);
    } else {
      RunnerFacts(s, step.c);
      if Switching(step) {
        SwitchingPids(s, init, step);
      } else if Waiting(step) {
        WaitingPids(s, init, step);
      } else if Exits(step) {
        ExitsPids(s, init, step);
      } else {
        if step.ForkDone? {
          ForkFacts(s, s.cpus[step.c].p);
        }
        ForksPids(s, init, step);
      }
    }
  }

  /** Every step keeps the invariant. */
  lemma {:induction false} StepAll(s: State, init: nat, step: Step)
    requires All(s, init) && Enabled(s, init, step)
    ensures All(Next(s, init, step), init)
  {
    hide Core, Wait, Pids, Enabled, Next;
    StepPids(s, init, step);
    if Scheduling(step) {
      SchedulingCore(s, init, step);
      PlainQuiet(s, init, step);
    } else if Switching(step) {
      SwitchingInv(s, init, step);
    } else if Waiting(step) {
      WaitingCore(s, init, step);
      WaitingWait(s, init, step);
    } else if Exits(step) {
      ExitsCore(s, init, step);
      ExitsWait(s, init, step);
    } else {
      ForksInv(s, init, step);
    }
  }

  // ---- runs --------------------------------------------------------------------------------------------------

  /** After `setup_init_process`: init can run, every other slot is unused, the CPUs are in their schedulers. */
  ghost predicate Initial(s: State, init: nat) {
    && init < |s.procs| && s.procs[init] == Proc(Runnable, None, None, false, 1, Kernel, None)
    && (forall p :: 0 <= p < |s.procs| && p != init ==> s.procs[p] == Deallocated())
    && (forall c :: 0 <= c < |s.cpus| ==> s.cpus[c] == Idle)
    && s.waitLock == None && s.nextPid == 2 && s.reaped == {}
  }

  lemma {:induction false} InitialAll(s: State, init: nat)
    requires Initial(s, init)
    ensures All(s, init)
  {
    forall p | 0 <= p < |s.procs|
      ensures HomeOk(s, p) && ForkOk(s, p) && !HoldsWait(s.procs[p].pc) && s.procs[p].parent == None {
      assert p != init ==> s.procs[p] == Deallocated();
    }
    assert forall p :: !Settled(s, p);
  }

  ghost predicate IsRun(s: State, init: nat, steps: seq<Step>)
    decreases |steps|
  {
    steps == [] || (Enabled(s, init, steps[0]) && IsRun(Next(s, init, steps[0]), init, steps[1..]))
  }

  ghost function Reached(s: State, init: nat, steps: seq<Step>): State
    requires IsRun(s, init, steps)
    decreases |steps|
  {
    if steps == [] then s else Reached(Next(s, init, steps[0]), init, steps[1..])
  }

  lemma {:induction false} RunAll(s: State, init: nat, steps: seq<Step>)
    requires All(s, init) && IsRun(s, init, steps)
    ensures All(Reached(s, init, steps), init)
    decreases |steps|
  {
    hide All, Enabled, Next;
    if steps != [] {
      StepAll(s, init, steps[0]);
      RunAll(Next(s, init, steps[0]), init, steps[1..]);
    }
  }

  /** Two CPU slots hold the same process. */
  predicate InEither(s: State, c: nat, d: nat)
    requires c < |s.cpus| && d < |s.cpus|
  {
    !s.cpus[c].Idle? && !s.cpus[d].Idle? && s.cpus[c].p == s.cpus[d].p
  }

  /** In every reachable state a process is in at most one CPU slot, and when its lock is free it is running exactly if
      some slot is assigned to it. */
  lemma {:induction false} SchedulerSafety(s: State, init: nat, steps: seq<Step>)
    requires Initial(s, init) && IsRun(s, init, steps)
    ensures var r := Reached(s, init, steps);
            && (forall c, d :: 0 <= c < |r.cpus| && 0 <= d < |r.cpus| && InEither(r, c, d) ==> c == d)
            && (forall p :: 0 <= p < |r.procs| && r.procs[p].lock == None ==>
                  (r.procs[p].state == Running <==> exists c :: 0 <= c < |r.cpus| && r.cpus[c] == On(p)))
  {
    hide Initial, IsRun, Reached, Wait, Pids, WaitHeld;
    InitialAll(s, init);
    RunAll(s, init, steps);
    var r := Reached(s, init, steps);
    forall c, d | 0 <= c < |r.cpus| && 0 <= d < |r.cpus| && InEither(r, c, d) ensures c == d {
      assert SlotOk(r, c) && SlotOk(r, d);
    }
    forall p | 0 <= p < |r.procs| && r.procs[p].lock == None
      ensures r.procs[p].state == Running <==> exists c :: 0 <= c < |r.cpus| && r.cpus[c] == On(p)
    {
      RunningIff(r, p);
    }
  }

  lemma {:induction false} RunningIff(s: State, p: nat)
    requires Safe(s) && IsFree(s, p)
    ensures s.procs[p].state == Running <==> exists c :: 0 <= c < |s.cpus| && s.cpus[c] == On(p)
  {
    assert HomeOk(s, p);
    if s.procs[p].state == Running {
      var c := s.procs[p].home.value;
      assert SlotOk(s, c);
      assert s.cpus[c] == On(p);
    }
    if c :| 0 <= c < |s.cpus| && s.cpus[c] == On(p) {
      assert SlotOk(s, c);
    }
  }

  /** The lock of `p` stays where it is, or is given up by the one who has to. */
  ghost predicate HandedOver(s: State, r: State, step: Step, p: nat)
    requires p < |s.procs| && s.procs[p].lock.Some?
  {
    var g := s.procs[p].lock.value;
    && p < |r.procs|
    && (|| r.procs[p].lock == Some(g)
        || (r.procs[p].lock == None
            && step == if g.byScheduler then Assign(g.cpu) else if s.procs[p].state.Used? then ForkUnlock(g.cpu)
              else Release(g.cpu)))
  }

  lemma {:induction false} SchedulingHands(s: State, init: nat, step: Step, p: nat)
    requires Safe(s) && Enabled(s, init, step) && p < |s.procs| && s.procs[p].lock.Some? && Scheduling(step)
    ensures HandedOver(s, Next(s, init, step), step, p)
  {
    if step.Assign? || step.Release? {
      assert SlotOk(s, step.c);
    }
  }

  lemma {:induction false} SwitchingHands(s: State, init: nat, step: Step, p: nat)
    requires Safe(s) && Enabled(s, init, step) && p < |s.procs| && s.procs[p].lock.Some?
      && (Switching(step) || Waiting(step))
    ensures HandedOver(s, Next(s, init, step), step, p)
  {
    hide Safe;
    RunnerFacts(s, step.c);
  }

  lemma {:induction false} ExitsHands(s: State, init: nat, step: Step, p: nat)
    requires Safe(s) && Enabled(s, init, step) && p < |s.procs| && s.procs[p].lock.Some? && Exits(step)
    ensures HandedOver(s, Next(s, init, step), step, p)
  {
    hide Safe;
    RunnerFacts(s, step.c);
  }

  lemma {:induction false} ForksHands(s: State, init: nat, step: Step, p: nat)
    requires Safe(s) && Enabled(s, init, step) && p < |s.procs| && s.procs[p].lock.Some?
    requires step.Fork? || step.ForkUnlock? || step.ForkLink? || step.ForkDone?
    ensures HandedOver(s, Next(s, init, step), step, p)
  {
    RunnerFacts(s, step.c);
    assert ForkOk(s, s.cpus[step.c].p) && HomeOk(s, p);
  }

  /** A process lock that is held across a context switch is given up once, by the other side on the same CPU: the
      scheduler's by `Assigned::assign` of the process, the process's own by `Assigned::release` of the scheduler.  A
      lock held while a process is being created is given up by its creator. */
  lemma {:induction false} LockHandedOver(s: State, init: nat, step: Step, p: nat)
    requires All(s, init) && Enabled(s, init, step) && p < |s.procs| && s.procs[p].lock.Some?
    ensures HandedOver(s, Next(s, init, step), step, p)
  {
    hide Wait, Pids, WaitHeld, Safe, HandedOver, Next, Enabled;
    if Scheduling(step) {
      SchedulingHands(s, init, step, p);
    } else if Switching(step) || Waiting(step) {
      SwitchingHands(s, init, step, p);
    } else if Exits(step) {
      ExitsHands(s, init, step, p);
    } else {
      ForksHands(s, init, step, p);
    }
  }

  /** Whenever the wait lock is free, no process asleep in `wait` has a zombie child. */
  lemma {:induction false} NoLostChild(s: State, init: nat, steps: seq<Step>)
    requires Initial(s, init) && IsRun(s, init, steps)
    ensures var r := Reached(s, init, steps);
            r.waitLock == None ==>
              forall p, q ::
                0 <= p < |r.procs| && 0 <= q < |r.procs| && r.procs[p].state == Sleeping(Child(p))
                    && r.procs[q].parent == Some(p) ==>
                r.procs[q].state != Zombie
  {
    hide Initial, IsRun, Reached, Core, Pids;
    InitialAll(s, init);
    RunAll(s, init, steps);
    var r := Reached(s, init, steps);
    forall p, q | r.waitLock == None && 0 <= p < |r.procs| && 0 <= q < |r.procs|
      && r.procs[p].state == Sleeping(Child(p)) && r.procs[q].parent == Some(p)
      ensures r.procs[q].state != Zombie
    {
      assert Settled(r, p) && !Excused(r, init, p, q);
      assert !ZombieChild(r, q, p);
    }
  }

  /** A zombie is reaped once, and only after its CPU has left its kernel stack. */
  lemma {:induction false} ReapedOnce(s: State, init: nat, c: nat)
    requires All(s, init) && Enabled(s, init, ScanOne(c)) && ZombieChild(s, s.procs[s.cpus[c].p].pc.i, s.cpus[c].p)
    ensures var q := s.procs[s.procs[s.cpus[c].p].pc.i];
            q.pid !in s.reaped && q.home == None && q.pid in Next(s, init, ScanOne(c)).reaped
  {
    hide Wait, WaitHeld;
    AwayIfFree(s, s.procs[s.cpus[c].p].pc.i);
  }

  /** The state transitions that the code unwraps never fail. */
  lemma {:induction false} UnwrapsHold(s: State, init: nat, step: Step)
    requires All(s, init) && Enabled(s, init, step)
    ensures step.Yield? ==> Pause(s.procs[s.cpus[step.c].p].state) == Some(Runnable)
    ensures step.SleepOn? ==>
      Sleep(s.procs[s.cpus[step.c].p].state, Other(step.token)) == Some(Sleeping(Other(step.token)))
    ensures step.SleepSwitch? ==> Sleep(s.procs[s.cpus[step.c].p].state, Child(s.cpus[step.c].p)).Some?
    ensures step.TakeOwnLock? ==> Die(s.procs[s.cpus[step.c].p].state) == Some(Zombie)
    ensures step.Fork? ==> Allocate(s.procs[step.child].state, s.cpus[step.c].p) == Some(Used(s.cpus[step.c].p))
    ensures step.ForkDone? ==> Setup(s.procs[s.procs[s.cpus[step.c].p].pc.child].state) == Some(Runnable)
  {
    hide Wait, Pids, WaitHeld, Safe;
    if !Scheduling(step) {
      RunnerFacts(s, step.c);
      ForkFacts(s, s.cpus[step.c].p);
    }
  }
}
