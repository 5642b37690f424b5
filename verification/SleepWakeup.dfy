/** `process::sleep` and `wakeup`, for any lock and any token: the thread takes its own lock before it gives up the
    guard, so that no wakeup falls in between.  A step is what a thread does from one lock operation to the next. */
module SleepWakeup {
  import opened Options

  /** Where a thread is.  `Waking(i)` has looked at the first `i` threads of the table. */
  datatype Pc =
    | Outside
    | Inside
    | Locked
    | Released
    | Falling
    | Asleep
    | Woken
    | Waking(i: nat)

  /** Whether what the sleepers wait for is there, who has the guard, and the threads. */
  datatype State = State(ready: bool, guard: Option<nat>, threads: seq<Pc>)

  /** Callers of `sleep` have found the condition false under the guard; whoever makes it true calls `wakeup` before it
      gives up the guard.  Anybody who has the guard may make it false. */
  datatype Step =
    | Enter(t: nat)
    | Leave(t: nat)
    | Use(t: nat)
    | Provide(t: nat)
    | TakeOwnLock(t: nat)
    | DropGuard(t: nat)
    | SetSleeping(t: nat)
    | Switch(t: nat)
    | WakeOne(t: nat)
    | WakeDone(t: nat)
    | Rouse(t: nat)

  predicate HasGuard(pc: Pc) {
    pc.Inside? || pc.Locked? || pc.Waking?
  }

  predicate HasOwnLock(pc: Pc) {
    pc.Locked? || pc.Released? || pc.Falling?
  }

  /** On the way to sleep, or there. */
  predicate Committed(pc: Pc) {
    HasOwnLock(pc) || pc.Asleep?
  }

  ghost predicate Enabled(s: State, step: Step) {
    && step.t < |s.threads|
    && var pc := s.threads[step.t];
       match step
       case Enter(t) => (pc.Outside? || pc.Woken?) && s.guard == None
       case Leave(t) => pc.Inside?
       case Use(t) => pc.Inside?
       case Provide(t) => pc.Inside?
       case TakeOwnLock(t) => pc.Inside? && !s.ready
       case DropGuard(t) => pc.Locked?
       case SetSleeping(t) => pc.Released?
       case Switch(t) => pc.Falling?
       case WakeOne(t) => pc.Waking? && pc.i < |s.threads| && (pc.i == t || !HasOwnLock(s.threads[pc.i]))
       case WakeDone(t) => pc.Waking? && pc.i == |s.threads|
       case Rouse(t) => pc.Asleep?
  }

  function Move(s: State, t: nat, pc: Pc): State
    requires t < |s.threads|
  {
    s.(threads := s.threads[t := pc])
  }

  ghost function Next(s: State, step: Step): State
    requires Enabled(s, step)
  {
    var t := step.t;
    match step
    case Enter(_) => Move(s, t, Inside).(guard := Some(t))
    case Leave(_) => Move(s, t, Outside).(guard := None)
    case Use(_) => s.(ready := false)
    case Provide(_) => Move(s, t, Waking(0)).(ready := true)
    case TakeOwnLock(_) => Move(s, t, Locked)
    case DropGuard(_) => Move(s, t, Released).(guard := None)
    case SetSleeping(_) => Move(s, t, Falling)
    case Switch(_) => Move(s, t, Asleep)
    case WakeOne(_) =>
      var i := s.threads[t].i;
      var r := if s.threads[i].Asleep? then Move(s, i, Woken) else s;
      Move(r, t, Waking(i + 1))
    case WakeDone(_) => Move(s, t, Inside)
    case Rouse(_) => Move(s, t, Woken)
  }

  ghost predicate Guarded(s: State) {
    && (s.guard.Some? ==> s.guard.value < |s.threads|)
    && forall t :: 0 <= t < |s.threads| ==> (HasGuard(s.threads[t]) <==> s.guard == Some(t))
  }

  /** The holder of the guard is in `wakeup` and has not come to thread `t`. */
  ghost predicate Coming(s: State, t: nat) {
    && s.guard.Some? && s.guard.value < |s.threads|
    && s.threads[s.guard.value].Waking? && s.threads[s.guard.value].i <= t
  }

  ghost predicate NoneLost(s: State) {
    s.ready ==> forall t :: 0 <= t < |s.threads| && Committed(s.threads[t]) ==> Coming(s, t)
  }

  lemma {:induction false} StepInv(s: State, step: Step)
    requires Guarded(s) && NoneLost(s) && Enabled(s, step)
    ensures Guarded(Next(s, step)) && NoneLost(Next(s, step))
  {
    var r := Next(s, step);
    if r.ready {
      forall t | 0 <= t < |r.threads| && Committed(r.threads[t]) ensures Coming(r, t) {
        assert s.ready && Committed(s.threads[t]) ==> Coming(s, t);
      }
    }
  }

  ghost predicate IsRun(s: State, steps: seq<Step>)
    decreases |steps|
  {
    steps == [] || (Enabled(s, steps[0]) && IsRun(Next(s, steps[0]), steps[1..]))
  }

  ghost function Reached(s: State, steps: seq<Step>): State
    requires IsRun(s, steps)
    decreases |steps|
  {
    if steps == [] then s else Reached(Next(s, steps[0]), steps[1..])
  }

  lemma {:induction false} RunInv(s: State, steps: seq<Step>)
    requires Guarded(s) && NoneLost(s) && IsRun(s, steps)
    ensures Guarded(Reached(s, steps)) && NoneLost(Reached(s, steps))
    decreases |steps|
  {
    hide Guarded, NoneLost, Enabled, Next;
    if steps != [] {
      StepInv(s, steps[0]);
      RunInv(Next(s, steps[0]), steps[1..]);
    }
  }

  /** In every run of any number of threads: while nobody has the guard, nobody is asleep, or on the way to sleep,
      although what it waits for is there. */
  lemma {:induction false} NoLostWakeup(s: State, steps: seq<Step>)
    requires s.guard == None && (forall t :: 0 <= t < |s.threads| ==> s.threads[t] == Outside) && IsRun(s, steps)
    ensures var r := Reached(s, steps);
            r.guard == None && r.ready ==> forall t :: 0 <= t < |r.threads| ==> !Committed(r.threads[t])
  {
    hide IsRun, Reached;
    RunInv(s, steps);
  }
}
