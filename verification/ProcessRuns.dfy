/** Runs of the process system: scheduler safety, and no child is ever lost. */
module ProcessRuns {
  import opened Options
  import opened Process

  // ---- when a step can be taken, and what it does ------------------------------------------------------------

  ghost predicate Enabled(s: State, init: nat, step: Step) {
    match step
    case Dispatch(c, p) => CanDispatch(s, c, p)
    case Assign(c) => c < |s.cpus| && s.cpus[c].Dispatching? && s.cpus[c].p < |s.procs|
    case Release(c) => c < |s.cpus| && s.cpus[c].Leaving? && s.cpus[c].p < |s.procs|
    case WakeOne(p, token) => IsFree(s, p)
    case Kill(p) => IsFree(s, p)
    case Yield(c) => Runner(s, c) && Preemptible(s.procs[s.cpus[c].p].pc) && IsFree(s, s.cpus[c].p)
    case SleepOn(c, token) => Runner(s, c) && s.procs[s.cpus[c].p].pc == Kernel && IsFree(s, s.cpus[c].p)
    case EnterWait(c) =>
      Runner(s, c) && (s.procs[s.cpus[c].p].pc == Kernel || s.procs[s.cpus[c].p].pc == SleepDone) && s.waitLock == None
    case ScanOne(c) => Runner(s, c) && CanScan(s, s.cpus[c].p)
    case ScanFault(c) => Runner(s, c) && CanScan(s, s.cpus[c].p)
    case ScanEnd(c) =>
      && Runner(s, c) && s.procs[s.cpus[c].p].pc.Scan? && s.procs[s.cpus[c].p].pc.i == |s.procs|
      && (MustSleep(s, s.cpus[c].p) ==> IsFree(s, s.cpus[c].p))
    case SleepRelease(c) => Runner(s, c) && s.procs[s.cpus[c].p].pc == SleepLocked
    case SleepSwitch(c) => Runner(s, c) && s.procs[s.cpus[c].p].pc == SleepReleased
    case EnterExit(c) => Runner(s, c) && s.procs[s.cpus[c].p].pc == Kernel && s.cpus[c].p != init && s.waitLock == None
    case ReparentOne(c) => Runner(s, c) && s.procs[s.cpus[c].p].pc.Reparent?
    case WakeInitOne(c) =>
      Runner(s, c) && var p := s.cpus[c].p;
          s.procs[p].pc.WakeInit? && (s.procs[p].pc.j < |s.procs| ==> CanWake(s, p, s.procs[p].pc.j))
    case WakeParentOne(c) =>
      Runner(s, c) && var p := s.cpus[c].p;
          s.procs[p].pc.WakeParent? && (s.procs[p].pc.j < |s.procs| ==> CanWake(s, p, s.procs[p].pc.j))
    case TakeOwnLock(c) => Runner(s, c) && s.procs[s.cpus[c].p].pc == Dying && IsFree(s, s.cpus[c].p)
    case DieRelease(c) => Runner(s, c) && s.procs[s.cpus[c].p].pc == Died
    case DieSwitch(c) => Runner(s, c) && s.procs[s.cpus[c].p].pc == DiedReleased
    case Fork(c, q) => Runner(s, c) && s.procs[s.cpus[c].p].pc == Kernel && IsFree(s, q) && s.procs[q].state == Unused
    case ForkUnlock(c) => Runner(s, c) && s.procs[s.cpus[c].p].pc.ForkFilling?
      && s.procs[s.cpus[c].p].pc.child < |s.procs|
    case ForkLink(c) =>
      Runner(s, c) && s.procs[s.cpus[c].p].pc.ForkParent? && s.procs[s.cpus[c].p].pc.child < |s.procs|
          && s.waitLock == None
    case ForkDone(c) =>
      Runner(s, c) && s.procs[s.cpus[c].p].pc.ForkSetup? && IsFree(s, s.procs[s.cpus[c].p].pc.child)
  }

  predicate Runner(s: State, c: nat) {
    c < |s.cpus| && s.cpus[c].On? && s.cpus[c].p < |s.procs|
  }

  ghost function Next(s: State, init: nat, step: Step): State
    requires Enabled(s, init, step)
  {
    match step
    case Dispatch(c, p) => DoDispatch(s, c, p)
    case Assign(c) => DoAssign(s, c)
    case Release(c) => DoRelease(s, c)
    case WakeOne(p, token) => Put(s, p, s.procs[p].(state := Woken(s.procs[p].state, Other(token))))
    case Kill(p) => DoKill(s, p)
    case Yield(c) => Leave(s, c, s.cpus[c].p, Runnable)
    case SleepOn(c, token) => Leave(s, c, s.cpus[c].p, Sleeping(Other(token)))
    case EnterWait(c) => DoEnterWait(s, s.cpus[c].p)
    case ScanOne(c) => DoScan(s, s.cpus[c].p)
    case ScanFault(c) => DoScanFault(s, s.cpus[c].p)
    case ScanEnd(c) => DoScanEnd(s, c, s.cpus[c].p)
    case SleepRelease(c) => SetPc(s, s.cpus[c].p, SleepReleased).(waitLock := None)
    case SleepSwitch(c) =>
      var p := s.cpus[c].p;
      SetPc(Leave(s, c, p, Sleeping(Child(p))), p, SleepDone)
    case EnterExit(c) => SetPc(s, s.cpus[c].p, Reparent(0)).(waitLock := Some(s.cpus[c].p))
    case ReparentOne(c) => DoReparent(s, init, s.cpus[c].p)
    case WakeInitOne(c) => DoWakeInit(s, init, s.cpus[c].p)
    case WakeParentOne(c) => DoWakeParent(s, s.cpus[c].p)
    case TakeOwnLock(c) => DoDie(s, c, s.cpus[c].p)
    case DieRelease(c) => SetPc(s, s.cpus[c].p, DiedReleased).(waitLock := None)
    case DieSwitch(c) =>
      var p := s.cpus[c].p;
      SetPc(Leave(s, c, p, s.procs[p].state), p, Dead)
    case Fork(c, q) => DoFork(s, c, s.cpus[c].p, q)
    case ForkUnlock(c) => DoForkUnlock(s, s.cpus[c].p)
    case ForkLink(c) => DoForkLink(s, s.cpus[c].p)
    case ForkDone(c) => DoForkDone(s, s.cpus[c].p)
  }

  // ---- scheduler safety --------------------------------------------------------------------------------------

  predicate InSlot(x: Cpu, p: nat) {
    !x.Idle? && x.p == p
  }

  /** What holds of a process in a CPU slot. */
  ghost predicate SlotOk(s: State, c: nat)
    requires c < |s.cpus|
  {
    s.cpus[c].Idle? ||
    (&& s.cpus[c].p < |s.procs| && s.procs[s.cpus[c].p].home == Some(c)
     && var q := s.procs[s.cpus[c].p];
        match s.cpus[c]
        case Idle => true
        case Dispatching(_) => q.state == Running && q.lock == Some(Guard(c, true)) && (Preemptible(q.pc))
        case Leaving(_) =>
          q.lock == Some(Guard(c, false))
              && if q.pc == Dead then q.state == Zombie
                else Preemptible(q.pc) && (q.state == Runnable || q.state.Sleeping?)
        case On(_) =>
          && q.pc != Dead
          && q.lock == (if HoldsOwn(q.pc) then Some(Guard(c, false)) else None)
          && q.state == if q.pc.Died? || q.pc.DiedReleased? then Zombie else Running)
  }

  /** What holds of a process in no slot: it does not run, and its lock is held only while it is being created. */
  ghost predicate AwayOk(s: State, p: nat)
    requires p < |s.procs|
  {
    var q := s.procs[p];
    match q.state
    case Unused => q.pc == Kernel && q.lock == None && q.parent == None
    case Used(r) =>
      && r < |s.procs| && r != p && q.pc == Kernel
      && (|| (s.procs[r].pc == ForkFilling(p) && s.procs[r].home.Some?
        && q.lock == Some(Guard(s.procs[r].home.value, false)))
          || ((s.procs[r].pc == ForkParent(p) || s.procs[r].pc == ForkSetup(p)) && q.lock == None))
    case Sleeping(_) => q.lock == None && Preemptible(q.pc)
    case Runnable => q.lock == None && Preemptible(q.pc)
    case Running => false
    case Zombie => q.lock == None && q.pc == Dead
  }

  ghost predicate HomeOk(s: State, p: nat)
    requires p < |s.procs|
  {
    match s.procs[p].home
    case None => AwayOk(s, p)
    case Some(c) => c < |s.cpus| && InSlot(s.cpus[c], p)
  }

  /** A forking thread is alone in filling its child. */
  ghost predicate ForkOk(s: State, p: nat)
    requires p < |s.procs|
  {
    var pc := s.procs[p].pc;
    (pc.ForkFilling? || pc.ForkParent? || pc.ForkSetup?) ==>
      pc.child < |s.procs| && pc.child != p && s.procs[pc.child].state == Used(p) && s.procs[pc.child].home == None
  }

  ghost predicate Safe(s: State) {
    && (forall c :: 0 <= c < |s.cpus| ==> SlotOk(s, c))
    && (forall p :: 0 <= p < |s.procs| ==> HomeOk(s, p))
    && (forall p :: 0 <= p < |s.procs| ==> ForkOk(s, p))
  }

  /** The wait lock is held by the thread whose place in the code says so. */
  ghost predicate WaitHeld(s: State) {
    && (s.waitLock.Some? ==> s.waitLock.value < |s.procs|)
    && (forall p :: 0 <= p < |s.procs| ==> (HoldsWait(s.procs[p].pc) <==> s.waitLock == Some(p)))
  }

  ghost predicate Core(s: State) {
    Safe(s) && WaitHeld(s)
  }

  /** With its lock free, a process that does not run is in no CPU slot. */
  lemma {:induction false} AwayIfFree(s: State, p: nat)
    requires Safe(s) && IsFree(s, p) && s.procs[p].state != Running
    ensures s.procs[p].home == None && AwayOk(s, p)
  {
    assert HomeOk(s, p);
    assert s.procs[p].home.Some? ==> SlotOk(s, s.procs[p].home.value);
  }

  // ---- the scheduler's steps ---------------------------------------------------------------------------------

  lemma {:induction false} DispatchCore(s: State, c: nat, p: nat)
    requires Core(s) && CanDispatch(s, c, p)
    ensures Core(DoDispatch(s, c, p))
  {
    var r := DoDispatch(s, c, p);
    AwayIfFree(s, p);
    forall d | 0 <= d < |r.cpus| ensures SlotOk(r, d) {
      assert SlotOk(s, d);
    }
    forall q | 0 <= q < |r.procs| ensures HomeOk(r, q) && ForkOk(r, q) {
      assert HomeOk(s, q) && ForkOk(s, q);
    }
  }

  lemma {:induction false} AssignCore(s: State, c: nat)
    requires Core(s) && c < |s.cpus| && s.cpus[c].Dispatching? && s.cpus[c].p < |s.procs|
    ensures Core(DoAssign(s, c))
    ensures s.procs[s.cpus[c].p].lock == Some(Guard(c, true))
  {
    var r := DoAssign(s, c);
    assert SlotOk(s, c);
    forall d | 0 <= d < |r.cpus| ensures SlotOk(r, d) {
      assert SlotOk(s, d);
    }
    forall q | 0 <= q < |r.procs| ensures HomeOk(r, q) && ForkOk(r, q) {
      assert HomeOk(s, q) && ForkOk(s, q);
    }
  }

  lemma {:induction false} ReleaseCore(s: State, c: nat)
    requires Core(s) && c < |s.cpus| && s.cpus[c].Leaving? && s.cpus[c].p < |s.procs|
    ensures Core(DoRelease(s, c))
    ensures s.procs[s.cpus[c].p].lock == Some(Guard(c, false))
  {
    var r := DoRelease(s, c);
    assert SlotOk(s, c);
    forall d | 0 <= d < |r.cpus| ensures SlotOk(r, d) {
      assert SlotOk(s, d);
    }
    forall q | 0 <= q < |r.procs| ensures HomeOk(r, q) && ForkOk(r, q) {
      assert HomeOk(s, q) && ForkOk(s, q);
    }
  }

  ghost predicate CanLeave(s: State, c: nat, p: nat, state: ProcessState, pc: Pc) {
    && RunsOn(s, c, p)
    && var q := s.procs[p];
       || (state == Zombie && q.pc == DiedReleased && pc == Dead)
       || (state == Runnable && Preemptible(q.pc) && pc == q.pc)
       || (state.Sleeping? && q.pc == Kernel && pc == Kernel)
       || (state.Sleeping? && q.pc == SleepReleased && pc == SleepDone)
  }

  lemma {:induction false} LeaveSlots(s: State, c: nat, p: nat, state: ProcessState, pc: Pc, d: nat)
    requires Safe(s) && CanLeave(s, c, p, state, pc) && d < |s.cpus|
    ensures SlotOk(SetPc(Leave(s, c, p, state), p, pc), d)
  {
    assert SlotOk(s, c) && SlotOk(s, d);
  }

  lemma {:induction false} LeaveHomes(s: State, c: nat, p: nat, state: ProcessState, pc: Pc, q: nat)
    requires Safe(s) && CanLeave(s, c, p, state, pc) && q < |s.procs|
    ensures var r := SetPc(Leave(s, c, p, state), p, pc); HomeOk(r, q) && ForkOk(r, q)
  {
    assert SlotOk(s, c) && HomeOk(s, q) && ForkOk(s, q);
  }

  lemma {:induction false} LeaveCore(s: State, c: nat, p: nat, state: ProcessState, pc: Pc)
    requires Core(s) && CanLeave(s, c, p, state, pc)
    ensures Core(SetPc(Leave(s, c, p, state), p, pc))
  {
    hide SlotOk, HomeOk, ForkOk;
    forall d | 0 <= d < |s.cpus| ensures SlotOk(SetPc(Leave(s, c, p, state), p, pc), d) {
      LeaveSlots(s, c, p, state, pc, d);
    }
    forall q | 0 <= q < |s.procs|
      ensures HomeOk(SetPc(Leave(s, c, p, state), p, pc), q) && ForkOk(SetPc(Leave(s, c, p, state), p, pc), q) {
      LeaveHomes(s, c, p, state, pc, q);
    }
  }

  /** Another process goes from sleeping to runnable, or is marked. */
  lemma {:induction false} WakeCore(s: State, p: nat, state: ProcessState, killed: bool)
    requires Core(s) && IsFree(s, p) && (state == s.procs[p].state || (s.procs[p].state.Sleeping? && state == Runnable))
    ensures Core(Put(s, p, s.procs[p].(state := state, killed := killed)))
  {
    var r := Put(s, p, s.procs[p].(state := state, killed := killed));
    if s.procs[p].state != Running {
      AwayIfFree(s, p);
    }
    forall d | 0 <= d < |r.cpus| ensures SlotOk(r, d) {
      assert SlotOk(s, d);
    }
    forall q | 0 <= q < |r.procs| ensures HomeOk(r, q) && ForkOk(r, q) {
      assert HomeOk(s, q) && ForkOk(s, q);
    }
  }

  /** Places in the code that a running thread passes without touching its own lock or a child that it creates. */
  predicate Plain(pc: Pc) {
    !HoldsOwn(pc) && !pc.Dead? && !pc.ForkFilling? && !pc.ForkParent? && !pc.ForkSetup?
  }

  lemma {:induction false} MoveCore(s: State, c: nat, p: nat, pc: Pc, wait: Option<nat>)
    requires Core(s) && RunsOn(s, c, p) && Plain(s.procs[p].pc) && Plain(pc)
    requires s.waitLock == None || s.waitLock == Some(p)
    requires wait == if HoldsWait(pc) then Some(p) else None
    ensures Core(SetPc(s, p, pc).(waitLock := wait))
  {
    var r := SetPc(s, p, pc).(waitLock := wait);
    assert SlotOk(s, c);
    forall d | 0 <= d < |r.cpus| ensures SlotOk(r, d) {
      assert SlotOk(s, d);
    }
    forall q | 0 <= q < |r.procs| ensures HomeOk(r, q) && ForkOk(r, q) {
      assert HomeOk(s, q) && ForkOk(s, q);
    }
  }

  lemma {:induction false} ParentCore(s: State, i: nat, parent: Option<nat>)
    requires Core(s) && i < |s.procs| && s.procs[i].state != Unused
    ensures Core(Put(s, i, s.procs[i].(parent := parent)))
  {
    var r := Put(s, i, s.procs[i].(parent := parent));
    forall d | 0 <= d < |r.cpus| ensures SlotOk(r, d) {
      assert SlotOk(s, d);
    }
    forall q | 0 <= q < |r.procs| ensures HomeOk(r, q) && ForkOk(r, q) {
      assert HomeOk(s, q) && ForkOk(s, q);
    }
  }

  /** Taking or keeping the own lock on the way to sleep or death. */
  lemma {:induction false} OwnCore(s: State, c: nat, p: nat, pc: Pc, state: ProcessState, wait: Option<nat>)
    requires Core(s) && RunsOn(s, c, p) && s.waitLock == Some(p)
    requires HoldsOwn(pc) && wait == (if HoldsWait(pc) then Some(p) else None)
    requires state == if pc.Died? || pc.DiedReleased? then Zombie else Running
    requires if pc.SleepLocked? || pc.Died? then Plain(s.procs[p].pc) else HoldsOwn(s.procs[p].pc)
    ensures Core(Put(s, p, s.procs[p].(pc := pc, state := state, lock := Some(Guard(c, false)))).(waitLock := wait))
  {
    var r := Put(s, p, s.procs[p].(pc := pc, state := state, lock := Some(Guard(c, false)))).(waitLock := wait);
    assert SlotOk(s, c);
    forall d | 0 <= d < |r.cpus| ensures SlotOk(r, d) {
      assert SlotOk(s, d);
    }
    forall q | 0 <= q < |r.procs| ensures HomeOk(r, q) && ForkOk(r, q) {
      assert HomeOk(s, q) && ForkOk(s, q);
    }
  }

  lemma {:induction false} ReapCore(s: State, c: nat, p: nat)
    requires Core(s) && RunsOn(s, c, p) && CanScan(s, p)
    requires s.procs[s.procs[p].pc.i].parent == Some(p) && s.procs[s.procs[p].pc.i].state == Zombie
    ensures Core(DoScan(s, p))
    ensures s.procs[s.procs[p].pc.i].home == None
  {
    var i := s.procs[p].pc.i;
    var r := DoScan(s, p);
    AwayIfFree(s, i);
    assert SlotOk(s, c);
    forall d | 0 <= d < |r.cpus| ensures SlotOk(r, d) {
      assert SlotOk(s, d);
    }
    forall q | 0 <= q < |r.procs| ensures HomeOk(r, q) && ForkOk(r, q) {
      assert HomeOk(s, q) && ForkOk(s, q);
    }
  }

  // ---- fork --------------------------------------------------------------------------------------------------

  lemma {:induction false} ForkCore(s: State, c: nat, p: nat, child: nat)
    requires Core(s) && RunsOn(s, c, p) && s.procs[p].pc == Kernel && IsFree(s, child) && s.procs[child].state == Unused
    ensures Core(DoFork(s, c, p, child))
  {
    var r := DoFork(s, c, p, child);
    AwayIfFree(s, child);
    assert SlotOk(s, c) && HomeOk(s, child) && ForkOk(s, child);
    forall d | 0 <= d < |r.cpus| ensures SlotOk(r, d) {
      assert SlotOk(s, d);
    }
    forall q | 0 <= q < |r.procs| ensures HomeOk(r, q) && ForkOk(r, q) {
      assert HomeOk(s, q) && ForkOk(s, q);
    }
  }

  lemma {:induction false} ForkUnlockCore(s: State, c: nat, p: nat)
    requires Core(s) && RunsOn(s, c, p) && s.procs[p].pc.ForkFilling? && s.procs[p].pc.child < |s.procs|
    ensures Core(DoForkUnlock(s, p))
  {
    var r := DoForkUnlock(s, p);
    assert SlotOk(s, c) && ForkOk(s, p);
    forall d | 0 <= d < |r.cpus| ensures SlotOk(r, d) {
      assert SlotOk(s, d);
    }
    forall q | 0 <= q < |r.procs| ensures HomeOk(r, q) && ForkOk(r, q) {
      assert HomeOk(s, q) && ForkOk(s, q);
    }
  }

  lemma {:induction false} ForkLinkCore(s: State, c: nat, p: nat)
    requires Core(s) && RunsOn(s, c, p) && s.procs[p].pc.ForkParent? && s.procs[p].pc.child < |s.procs|
    ensures Core(DoForkLink(s, p))
  {
    var r := DoForkLink(s, p);
    assert SlotOk(s, c) && ForkOk(s, p);
    forall d | 0 <= d < |r.cpus| ensures SlotOk(r, d) {
      assert SlotOk(s, d);
    }
    forall q | 0 <= q < |r.procs| ensures HomeOk(r, q) && ForkOk(r, q) {
      assert HomeOk(s, q) && ForkOk(s, q);
    }
  }

  lemma {:induction false} ForkDoneCore(s: State, c: nat, p: nat)
    requires Core(s) && RunsOn(s, c, p) && s.procs[p].pc.ForkSetup? && IsFree(s, s.procs[p].pc.child)
    ensures Core(DoForkDone(s, p))
  {
    var r := DoForkDone(s, p);
    assert SlotOk(s, c) && ForkOk(s, p) && HomeOk(s, s.procs[p].pc.child);
    forall d | 0 <= d < |r.cpus| ensures SlotOk(r, d) {
      assert SlotOk(s, d);
    }
    forall q | 0 <= q < |r.procs| ensures HomeOk(r, q) && ForkOk(r, q) {
      assert HomeOk(s, q) && ForkOk(s, q);
    }
  }
}
