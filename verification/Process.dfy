/** Processes, their locks and the CPUs as one transition system.  A step is what a CPU does from one lock operation or
    context switch to the next; `wakeup`, `wait` and `exit` walk over the process table one slot at a time. */
module Process {
  import opened Options

  /** What a process sleeps on: the address of a process, as in `wait`, or anything else. */
  datatype Token = Child(of: nat) | Other(token: nat)

  /** `ProcessState`.  A used slot notes who is filling it. */
  datatype ProcessState = Unused | Used(filler: nat) | Sleeping(on: Token) | Runnable | Running | Zombie

  // ---- the state transitions; `None` is the error case -------------------------------------------------------

  function Allocate(s: ProcessState, filler: nat): Option<ProcessState> {
    if s == Unused then Some(Used(filler)) else None
  }

  function Setup(s: ProcessState): Option<ProcessState> {
    if s.Used? then Some(Runnable) else None
  }

  function Run(s: ProcessState): Option<ProcessState> {
    if s == Runnable then Some(Running) else None
  }

  function Sleep(s: ProcessState, token: Token): Option<ProcessState> {
    if s == Running then Some(Sleeping(token)) else None
  }

  function Wakeup(s: ProcessState): Option<ProcessState> {
    if s.Sleeping? then Some(Runnable) else None
  }

  function Pause(s: ProcessState): Option<ProcessState> {
    if s == Running then Some(Runnable) else None
  }

  function Die(s: ProcessState): Option<ProcessState> {
    if s == Running then Some(Zombie) else None
  }

  /** One slot of the loop of `ProcessTable::wakeup`. */
  function Woken(s: ProcessState, token: Token): ProcessState {
    if s == Sleeping(token) then Wakeup(s).value else s
  }

  // ---- threads, locks and CPUs -------------------------------------------------------------------------------

  /** Where the kernel thread of a process is. */
  datatype Pc =
    | Kernel
    // wait
    | Scan(i: nat, kids: bool)
    | SleepLocked
    | SleepReleased
    | SleepDone
    // exit
    | Reparent(i: nat)
    | WakeInit(i: nat, j: nat)
    | WakeParent(j: nat)
    | Dying
    | Died
    | DiedReleased
    | Dead
    // fork
    | ForkFilling(child: nat)
    | ForkParent(child: nat)
    | ForkSetup(child: nat)

  /** A `SpinLockGuard` of a process: the CPU that took the lock, and on which side of the context switch. */
  datatype Guard = Guard(cpu: nat, byScheduler: bool)

  /** A process.  `home`, the CPU slot it is in, is not stored by the code. */
  datatype Proc = Proc(state: ProcessState, lock: Option<Guard>, parent: Option<nat>, killed: bool, pid: nat, pc: Pc,
      home: Option<nat>)

  /** A CPU slot: `None`, `Switching` on the way to a process or back from it, and `Assigned`. */
  datatype Cpu = Idle | Dispatching(p: nat) | On(p: nat) | Leaving(p: nat)

  datatype State = State(procs: seq<Proc>, cpus: seq<Cpu>, waitLock: Option<nat>, nextPid: nat, reaped: set<nat>)

  datatype Step =
    | Dispatch(c: nat, p: nat)
    | Assign(c: nat)
    | Release(c: nat)
    | Yield(c: nat)
    | SleepOn(c: nat, token: nat)
    | WakeOne(p: nat, token: nat)
    | Kill(p: nat)
    | EnterWait(c: nat)
    | ScanOne(c: nat)
    | ScanFault(c: nat)
    | ScanEnd(c: nat)
    | SleepRelease(c: nat)
    | SleepSwitch(c: nat)
    | EnterExit(c: nat)
    | ReparentOne(c: nat)
    | WakeInitOne(c: nat)
    | WakeParentOne(c: nat)
    | TakeOwnLock(c: nat)
    | DieRelease(c: nat)
    | DieSwitch(c: nat)
    | Fork(c: nat, child: nat)
    | ForkUnlock(c: nat)
    | ForkLink(c: nat)
    | ForkDone(c: nat)

  predicate HoldsWait(pc: Pc) {
    pc.Scan? || pc.SleepLocked? || pc.Reparent? || pc.WakeInit? || pc.WakeParent? || pc.Dying? || pc.Died?
  }

  predicate HoldsOwn(pc: Pc) {
    pc.SleepLocked? || pc.SleepReleased? || pc.Died? || pc.DiedReleased?
  }

  /** Interrupts are on and no lock is held, so that the thread can be preempted. */
  predicate Preemptible(pc: Pc) {
    pc.Kernel? || pc.SleepDone? || pc.ForkParent? || pc.ForkSetup?
  }

  /** The process that runs on a CPU. */
  predicate RunsOn(s: State, c: nat, p: nat) {
    c < |s.cpus| && s.cpus[c] == On(p) && p < |s.procs|
  }

  predicate IsFree(s: State, p: nat) {
    p < |s.procs| && s.procs[p].lock == None
  }

  function Put(s: State, p: nat, q: Proc): State
    requires p < |s.procs|
  {
    s.(procs := s.procs[p := q])
  }

  function SetPc(s: State, p: nat, pc: Pc): State
    requires p < |s.procs|
  {
    Put(s, p, s.procs[p].(pc := pc))
  }

  function SetCpu(s: State, c: nat, x: Cpu): State
    requires c < |s.cpus|
  {
    s.(cpus := s.cpus[c := x])
  }

  // ---- the scheduler and `return_to_scheduler` ---------------------------------------------------------------

  predicate CanDispatch(s: State, c: nat, p: nat) {
    c < |s.cpus| && s.cpus[c] == Idle && IsFree(s, p) && Run(s.procs[p].state).Some?
  }

  /** The scheduler takes the lock of a runnable process and switches to it with the lock held. */
  function DoDispatch(s: State, c: nat, p: nat): State
    requires CanDispatch(s, c, p)
  {
    SetCpu(Put(s, p, s.procs[p].(state := Run(s.procs[p].state).value, lock := Some(Guard(c, true)), home := Some(c))),
        c, Dispatching(p))
  }

  /** `Assigned::assign` on the side of the process. */
  function DoAssign(s: State, c: nat): State
    requires c < |s.cpus| && s.cpus[c].Dispatching? && s.cpus[c].p < |s.procs|
  {
    var p := s.cpus[c].p;
    SetCpu(Put(s, p, s.procs[p].(lock := None)), c, On(p))
  }

  /** `Assigned::release` on the side of the scheduler, which drops the guard. */
  function DoRelease(s: State, c: nat): State
    requires c < |s.cpus| && s.cpus[c].Leaving? && s.cpus[c].p < |s.procs|
  {
    var p := s.cpus[c].p;
    SetCpu(Put(s, p, s.procs[p].(lock := None, home := None)), c, Idle)
  }

  /** The process takes its own lock, changes its state, and switches away with the lock held. */
  function Leave(s: State, c: nat, p: nat, state: ProcessState): State
    requires RunsOn(s, c, p)
  {
    SetCpu(Put(s, p, s.procs[p].(state := state, lock := Some(Guard(c, false)))), c, Leaving(p))
  }

  /** `kill` of one process. */
  function DoKill(s: State, p: nat): State
    requires p < |s.procs|
  {
    var q := s.procs[p];
    Put(s, p, q.(killed := true, state := if q.state.Sleeping? then Wakeup(q.state).value else q.state))
  }

  // ---- wait --------------------------------------------------------------------------------------------------

  function DoEnterWait(s: State, p: nat): State
    requires p < |s.procs|
  {
    SetPc(s, p, Scan(0, false)).(waitLock := Some(p))
  }

  /** `Process::deallocate`. */
  function Deallocated(): Proc {
    Proc(Unused, None, None, false, 0, Kernel, None)
  }

  /** One slot of the loop of `wait`: only the slots of children are locked and looked at. */
  predicate CanScan(s: State, p: nat) {
    p < |s.procs| && s.procs[p].pc.Scan? && s.procs[p].pc.i < |s.procs| &&
    (s.procs[s.procs[p].pc.i].parent == Some(p) ==> IsFree(s, s.procs[p].pc.i))
  }

  function DoScan(s: State, p: nat): State
    requires CanScan(s, p)
  {
    var i := s.procs[p].pc.i;
    var q := s.procs[i];
    if q.parent != Some(p) then SetPc(s, p, Scan(i + 1, s.procs[p].pc.kids))
    else if q.state == Zombie then
      Put(SetPc(s, p, Kernel), i, Deallocated()).(waitLock := None, reaped := s.reaped + {q.pid})
    else SetPc(s, p, Scan(i + 1, true))
  }

  /** The child has been found but its status cannot be written: `wait` gives up and leaves it. */
  function DoScanFault(s: State, p: nat): State
    requires p < |s.procs|
  {
    SetPc(s, p, Kernel).(waitLock := None)
  }

  predicate MustSleep(s: State, p: nat) {
    p < |s.procs| && s.procs[p].pc.Scan? && s.procs[p].pc.kids && !s.procs[p].killed
  }

  /** The end of the loop: give up without children or when killed, else take the own lock for `sleep`. */
  function DoScanEnd(s: State, c: nat, p: nat): State
    requires p < |s.procs|
  {
    if MustSleep(s, p) then Put(s, p, s.procs[p].(pc := SleepLocked, lock := Some(Guard(c, false))))
    else SetPc(s, p, Kernel).(waitLock := None)
  }

  // ---- exit --------------------------------------------------------------------------------------------------

  /** One slot of the loop that gives the children away; init is woken for each of them. */
  function DoReparent(s: State, init: nat, p: nat): State
    requires p < |s.procs| && s.procs[p].pc.Reparent?
  {
    var i := s.procs[p].pc.i;
    if i >= |s.procs| then SetPc(s, p, WakeParent(0))
    else if s.procs[i].parent == Some(p) then
      SetPc(Put(s, i, s.procs[i].(parent := Some(init))), p, WakeInit(i, 0))
    else SetPc(s, p, Reparent(i + 1))
  }

  /** One slot of a `wakeup` by process `p`, which passes over `p` itself. */
  predicate CanWake(s: State, p: nat, j: nat) {
    j < |s.procs| && (j == p || IsFree(s, j))
  }

  function WakeSlot(s: State, p: nat, j: nat, token: Token): State
    requires CanWake(s, p, j)
  {
    if j == p then s else Put(s, j, s.procs[j].(state := Woken(s.procs[j].state, token)))
  }

  function DoWakeInit(s: State, init: nat, p: nat): State
    requires p < |s.procs| && s.procs[p].pc.WakeInit?
      && (s.procs[p].pc.j < |s.procs| ==> CanWake(s, p, s.procs[p].pc.j))
  {
    var i, j := s.procs[p].pc.i, s.procs[p].pc.j;
    if j < |s.procs| then SetPc(WakeSlot(s, p, j, Child(init)), p, WakeInit(i, j + 1)) else SetPc(s, p, Reparent(i + 1))
  }

  function DoWakeParent(s: State, p: nat): State
    requires p < |s.procs| && s.procs[p].pc.WakeParent?
      && (s.procs[p].pc.j < |s.procs| ==> CanWake(s, p, s.procs[p].pc.j))
  {
    var j := s.procs[p].pc.j;
    if j >= |s.procs| then SetPc(s, p, Dying)
    else if s.procs[p].parent == None then SetPc(s, p, WakeParent(j + 1))
    else SetPc(WakeSlot(s, p, j, Child(s.procs[p].parent.value)), p, WakeParent(j + 1))
  }

  /** Takes the own lock and dies. */
  function DoDie(s: State, c: nat, p: nat): State
    requires p < |s.procs|
  {
    Put(s, p, s.procs[p].(pc := Died, state := Zombie, lock := Some(Guard(c, false))))
  }

  // ---- fork --------------------------------------------------------------------------------------------------

  function DoFork(s: State, c: nat, p: nat, q: nat): State
    requires p < |s.procs| && q < |s.procs|
  {
    SetPc(Put(s, q, s.procs[q].(state := Used(p), lock := Some(Guard(c, false)), pid := s.nextPid)), p, ForkFilling(q))
      .(nextPid := s.nextPid + 1)
  }

  function DoForkUnlock(s: State, p: nat): State
    requires p < |s.procs| && s.procs[p].pc.ForkFilling? && s.procs[p].pc.child < |s.procs|
  {
    var q := s.procs[p].pc.child;
    SetPc(Put(s, q, s.procs[q].(lock := None)), p, ForkParent(q))
  }

  /** The parent is noted under the wait lock. */
  function DoForkLink(s: State, p: nat): State
    requires p < |s.procs| && s.procs[p].pc.ForkParent? && s.procs[p].pc.child < |s.procs|
  {
    var q := s.procs[p].pc.child;
    SetPc(Put(s, q, s.procs[q].(parent := Some(p))), p, ForkSetup(q))
  }

  function DoForkDone(s: State, p: nat): State
    requires p < |s.procs| && s.procs[p].pc.ForkSetup? && s.procs[p].pc.child < |s.procs|
  {
    var q := s.procs[p].pc.child;
    SetPc(Put(s, q, s.procs[q].(state := Runnable, pc := Kernel)), p, Kernel)
  }
}
