/** Sleeping on a pipe and on a sleep lock.  Each critical section of the spin lock is one step; `Rouse` is a wakeup
    from elsewhere, as by `kill`. */
module PipeSleep {
  import opened Blocks
  import opened Options
  import opened Pipe

  datatype Caller =
    | Writer(src: seq<Byte>, n: nat, i: nat, asleep: bool)
    | Reader(n: nat, asleep: bool)

  datatype State = State(p: Contents, callers: map<nat, Caller>)

  datatype Step =
    | EnterWrite(t: nat, src: seq<Byte>, n: nat)
    | EnterRead(t: nat, n: nat)
    | RunWrite(t: nat, kill: Option<nat>)
    | RunRead(t: nat, copied: nat, killed: bool)
    | CloseRead
    | CloseWrite
    | Rouse(t: nat)

  function Woken(c: Caller): Caller {
    match c
    case Writer(src, n, i, _) => Writer(src, n, i, false)
    case Reader(n, _) => Reader(n, false)
  }

  function WakeReaders(callers: map<nat, Caller>): map<nat, Caller> {
    map t | t in callers :: if callers[t].Reader? then Woken(callers[t]) else callers[t]
  }

  function WakeWriters(callers: map<nat, Caller>): map<nat, Caller> {
    map t | t in callers :: if callers[t].Writer? then Woken(callers[t]) else callers[t]
  }

  ghost predicate Enabled(s: State, step: Step) {
    match step
    case EnterWrite(t, src, n) => t !in s.callers && |src| <= n
    case EnterRead(t, n) => t !in s.callers
    case RunWrite(t, kill) => t in s.callers && s.callers[t].Writer? && !s.callers[t].asleep && WriterOk(s.callers[t])
    case RunRead(t, copied, killed) => t in s.callers && s.callers[t].Reader? && !s.callers[t].asleep
      && s.p.read <= |s.p.input|
    case CloseRead => s.p.readOpen
    case CloseWrite => s.p.writeOpen
    case Rouse(t) => t in s.callers
  }

  predicate WriterOk(c: Caller) {
    c.Writer? ==> c.i <= |c.src| <= c.n
  }

  function DoWrite(s: State, size: nat, t: nat, kill: Option<nat>): State
    requires t in s.callers && s.callers[t].Writer? && WriterOk(s.callers[t])
  {
    var c := s.callers[t];
    var (p, r) := WriteRun(s.p, size, c.src, c.n, c.i, kill);
    match r
    case Wrote(_) => State(p, WakeReaders(s.callers - {t}))
    case WriteFailed => State(p, s.callers - {t})
    case WriteSleeps(i) => State(p, WakeReaders(s.callers)[t := Writer(c.src, c.n, i, true)])
  }

  function DoRead(s: State, t: nat, copied: nat, killed: bool): State
    requires t in s.callers && s.callers[t].Reader? && s.p.read <= |s.p.input|
  {
    var n := s.callers[t].n;
    if ReadBlocks(s.p) then
      if killed then State(s.p, s.callers - {t}) else State(s.p, s.callers[t := Reader(n, true)])
    else State(s.p.(read := s.p.read + ReadCount(s.p, n, copied)), WakeWriters(s.callers - {t}))
  }

  ghost function Next(s: State, size: nat, step: Step): State
    requires Enabled(s, step)
  {
    match step
    case EnterWrite(t, src, n) => State(s.p, s.callers[t := Writer(src, n, 0, false)])
    case EnterRead(t, n) => State(s.p, s.callers[t := Reader(n, false)])
    case RunWrite(t, kill) => DoWrite(s, size, t, kill)
    case RunRead(t, copied, killed) => DoRead(s, t, copied, killed)
    case CloseRead => State(s.p.(readOpen := false), WakeWriters(s.callers))
    case CloseWrite => State(s.p.(writeOpen := false), WakeReaders(s.callers))
    case Rouse(t) => State(s.p, s.callers[t := Woken(s.callers[t])])
  }

  // ---- what a critical section of `write` does ---------------------------------------------------------------

  function Least(a: int, b: int): int {
    if a < b then a else b
  }

  /** How many bytes go in: as many as are left, readable and fit, and no more after the kill. */
  function Bytes(p: Contents, size: nat, src: seq<Byte>, i: nat, kill: Option<nat>): int {
    if !p.readOpen then 0 else
      var k := Least(|src| - i, size - p.Held());
      if kill.Some? then Least(k, kill.value) else k
  }

  lemma {:induction false} WriteRunSpec(p: Contents, size: nat, src: seq<Byte>, n: nat, i: nat, kill: Option<nat>)
    requires i <= |src| <= n && p.read <= |p.input| <= p.read + size
    ensures var (q, r) := WriteRun(p, size, src, n, i, kill);
            var k := Bytes(p, size, src, i, kill);
            && 0 <= k && i + k <= |src| && q == p.(input := p.input + src[i..i + k])
            && r == if i + k == n then Wrote(n)
                    else if !p.readOpen || kill == Some(k) then WriteFailed
                    else if p.Held() + k == size then WriteSleeps(i + k)
                    else Wrote(i + k)
    decreases n - i
  {
    if i < n && p.readOpen && kill != Some(0) && |p.input| < p.read + size && i < |src| {
      var q := p.(input := p.input + [src[i]]);
      WriteRunSpec(q, size, src, n, i + 1, if kill.Some? then Some(kill.value - 1) else None);
      var k := Bytes(q, size, src, i + 1, if kill.Some? then Some(kill.value - 1) else None);
      assert Bytes(p, size, src, i, kill) == k + 1;
      assert src[i..i + 1 + k] == [src[i]] + src[i + 1..i + 1 + k];
      assert q.input + src[i + 1..i + 1 + k] == p.input + src[i..i + 1 + k];
    } else {
      assert p.input + src[i..i] == p.input;
    }
  }

  // ---- who sleeps --------------------------------------------------------------------------------------------

  ghost predicate SleeperOk(p: Contents, size: nat, c: Caller) {
    c.asleep ==> if c.Reader? then ReadBlocks(p) else p.Held() == size && p.readOpen
  }

  /** A sleeping reader means an empty pipe with a writer's end open; a sleeping writer means a full one with a reader's
      end open. */
  ghost predicate Inv(s: State, size: nat) {
    && s.p.read <= |s.p.input| <= s.p.read + size
    && forall t :: t in s.callers ==> WriterOk(s.callers[t]) && SleeperOk(s.p, size, s.callers[t])
  }

  lemma {:induction false} BytesBound(p: Contents, size: nat, src: seq<Byte>, i: nat, kill: Option<nat>)
    requires i <= |src| && p.read <= |p.input| <= p.read + size
    ensures 0 <= Bytes(p, size, src, i, kill) <= size - p.Held()
    ensures p.Held() == size ==> Bytes(p, size, src, i, kill) == 0
    ensures !p.readOpen ==> Bytes(p, size, src, i, kill) == 0
  {
  }

  ghost predicate ReaderAsleep(s: State, t: nat) {
    t in s.callers && s.callers[t].Reader? && s.callers[t].asleep
  }

  /** The kill is seen after a byte has gone in and before the writer is done or full. */
  predicate KilledMidway(p: Contents, size: nat, c: Caller, kill: Option<nat>)
    requires c.Writer?
  {
    && kill.Some? && 0 < kill.value && c.i + kill.value < c.n && p.readOpen
    && c.i + kill.value <= |c.src| && p.Held() + kill.value <= size
  }

  lemma {:induction false} BytesMidway(p: Contents, size: nat, c: Caller, kill: Option<nat>)
    requires c.Writer? && WriterOk(c) && p.read <= |p.input| <= p.read + size
    ensures var k := Bytes(p, size, c.src, c.i, kill);
            KilledMidway(p, size, c, kill) <==> k > 0 && c.i + k != c.n && (!p.readOpen || kill == Some(k))
  {
  }

  /** A writer that is killed midway returns without a wakeup.  This, and only this, leaves a reader asleep on a pipe
      with bytes in it. */
  lemma {:induction false} KilledWriteIff(s: State, size: nat, t: nat, kill: Option<nat>)
    requires size > 0 && Inv(s, size) && Enabled(s, RunWrite(t, kill))
    ensures Inv(DoWrite(s, size, t, kill), size) <==>
      !(KilledMidway(s.p, size, s.callers[t], kill) && exists u :: ReaderAsleep(s, u))
  {
    hide WriteRun, Bytes;
    var c := s.callers[t];
    WriteRunSpec(s.p, size, c.src, c.n, c.i, kill);
    BytesBound(s.p, size, c.src, c.i, kill);
    BytesMidway(s.p, size, c, kill);
    var r := DoWrite(s, size, t, kill);
    if KilledMidway(s.p, size, c, kill) && exists u :: ReaderAsleep(s, u) {
      var u :| ReaderAsleep(s, u);
      assert u in r.callers && !SleeperOk(r.p, size, r.callers[u]);
    } else {
      forall u | u in r.callers ensures WriterOk(r.callers[u]) && SleeperOk(r.p, size, r.callers[u]) {
        assert u in s.callers && WriterOk(s.callers[u]) && SleeperOk(s.p, size, s.callers[u]);
        assert s.callers[u].Reader? && s.callers[u].asleep ==> ReaderAsleep(s, u);
      }
    }
  }

  // ---- runs --------------------------------------------------------------------------------------------------

  /** No writer is killed midway while a reader sleeps. */
  ghost predicate Harmless(s: State, size: nat, step: Step) {
    step.RunWrite? && step.t in s.callers && s.callers[step.t].Writer?
        && KilledMidway(s.p, size, s.callers[step.t], step.kill)
    ==> forall u :: !ReaderAsleep(s, u)
  }

  /** A step keeps the invariant if and only if it is harmless. */
  lemma {:induction false} StepInvIff(s: State, size: nat, step: Step)
    requires size > 0 && Inv(s, size) && Enabled(s, step)
    ensures Inv(Next(s, size, step), size) <==> Harmless(s, size, step)
  {
    hide WriteRun, KilledMidway;
    var r := Next(s, size, step);
    if step.RunWrite? {
      KilledWriteIff(s, size, step.t, step.kill);
    } else {
      forall u | u in r.callers ensures WriterOk(r.callers[u]) && SleeperOk(r.p, size, r.callers[u]) {
        assert u in s.callers ==> WriterOk(s.callers[u]) && SleeperOk(s.p, size, s.callers[u]);
      }
    }
  }

  ghost predicate IsRun(s: State, size: nat, steps: seq<Step>)
    decreases |steps|
  {
    steps == [] || (Enabled(s, steps[0]) && IsRun(Next(s, size, steps[0]), size, steps[1..]))
  }

  ghost predicate AllHarmless(s: State, size: nat, steps: seq<Step>)
    requires IsRun(s, size, steps)
    decreases |steps|
  {
    steps == [] || (Harmless(s, size, steps[0]) && AllHarmless(Next(s, size, steps[0]), size, steps[1..]))
  }

  ghost function Reached(s: State, size: nat, steps: seq<Step>): State
    requires IsRun(s, size, steps)
    decreases |steps|
  {
    if steps == [] then s else Reached(Next(s, size, steps[0]), size, steps[1..])
  }

  lemma {:induction false} RunInv(s: State, size: nat, steps: seq<Step>)
    requires size > 0 && Inv(s, size) && IsRun(s, size, steps) && AllHarmless(s, size, steps)
    ensures Inv(Reached(s, size, steps), size)
    decreases |steps|
  {
    hide Inv, Enabled, Next, Harmless;
    if steps != [] {
      StepInvIff(s, size, steps[0]);
      RunInv(Next(s, size, steps[0]), size, steps[1..]);
    }
  }

  /** A new pipe. */
  function Empty(): State {
    State(Contents([], 0, true, true), map[])
  }

  /** In every run in which no writer is killed midway while a reader sleeps, nobody sleeps in vain, and a reader and a
      writer never sleep together. */
  lemma {:induction false} NobodySleepsInVain(size: nat, steps: seq<Step>)
    requires size > 0 && IsRun(Empty(), size, steps) && AllHarmless(Empty(), size, steps)
    ensures var r := Reached(Empty(), size, steps);
            && (forall t :: t in r.callers && r.callers[t].asleep ==>
                  if r.callers[t].Reader? then r.p.Held() == 0 && r.p.writeOpen else r.p.Held() == size && r.p.readOpen)
            && !(exists t, u ::
              t in r.callers && u in r.callers && r.callers[t].asleep && r.callers[u].asleep && r.callers[t].Reader?
                  && r.callers[u].Writer?)
  {
    hide IsRun, Reached, AllHarmless;
    RunInv(Empty(), size, steps);
    var r := Reached(Empty(), size, steps);
    forall t | t in r.callers && r.callers[t].asleep
      ensures if r.callers[t].Reader? then r.p.Held() == 0 && r.p.writeOpen else r.p.Held() == size && r.p.readOpen
    {
      assert SleeperOk(r.p, size, r.callers[t]);
    }
  }

  /** The run that goes wrong: a reader sleeps on the empty pipe, one byte of a write goes in, the kill is seen, and the
      reader sleeps on. */
  lemma {:induction false} LostWakeup(b: Byte) returns (steps: seq<Step>)
    ensures IsRun(Empty(), 512, steps) && |steps| == 4
    ensures var r := Reached(Empty(), 512, steps); ReaderAsleep(r, 0) && r.p.Held() == 1 && r.callers.Keys == {0}
  {
    hide WriteRun;
    var step0, step1, step2,
        step3 := EnterRead(0, 1), RunRead(0, 0, false), EnterWrite(1, [b, b], 2), RunWrite(1, Some(1));
    steps := [step0, step1, step2, step3];
    var s1 := Next(Empty(), 512, step0);
    var s2 := Next(s1, 512, step1);
    var s3 := Next(s2, 512, step2);
    WriteRunSpec(s3.p, 512, [b, b], 2, 0, Some(1));
    var s4 := Next(s3, 512, step3);
    assert steps[1..] == [step1, step2, step3] && steps[1..][1..] == [step2, step3] && steps[1..][1..][1..] == [step3];
    assert steps[1..][1..][1..][1..] == [];
    assert IsRun(s4, 512, []) && Reached(s4, 512, []) == s4;
    assert IsRun(s3, 512, [step3]) && Reached(s3, 512, [step3]) == s4;
    assert IsRun(s2, 512, [step2, step3]) && Reached(s2, 512, [step2, step3]) == s4;
    assert IsRun(s1, 512, [step1, step2, step3]) && Reached(s1, 512, [step1, step2, step3]) == s4;
  }
}

/** Sleep locks. */
module SleepLock {
  import opened Options

  /** The lock, its holder, and the callers of `lock` with whether they sleep. */
  datatype State = State(locked: bool, holder: Option<nat>, waiting: map<nat, bool>)

  datatype Step = Enter(t: nat) | Run(t: nat) | Unlock(t: nat) | Rouse(t: nat)

  ghost predicate Enabled(s: State, step: Step) {
    match step
    case Enter(t) => t !in s.waiting && s.holder != Some(t)
    case Run(t) => t in s.waiting && !s.waiting[t]
    case Unlock(t) => s.holder == Some(t)
    case Rouse(t) => t in s.waiting
  }

  function Next(s: State, step: Step): State {
    match step
    case Enter(t) => s.(waiting := s.waiting[t := false])
    case Run(t) =>
      if s.locked then s.(waiting := s.waiting[t := true]) else State(true, Some(t), s.waiting - {t})
    case Unlock(t) => State(false, None, map u | u in s.waiting :: false)
    case Rouse(t) => s.(waiting := s.waiting[t := false])
  }

  ghost predicate Inv(s: State) {
    (s.locked <==> s.holder.Some?) && forall t :: t in s.waiting && s.waiting[t] ==> s.locked
  }

  ghost predicate IsRun(s: State, steps: seq<Step>)
    decreases |steps|
  {
    steps == [] || (Enabled(s, steps[0]) && IsRun(Next(s, steps[0]), steps[1..]))
  }

  ghost function Reached(s: State, steps: seq<Step>): State
    decreases |steps|
  {
    if steps == [] then s else Reached(Next(s, steps[0]), steps[1..])
  }

  lemma {:induction false} RunInv(s: State, steps: seq<Step>)
    requires Inv(s) && IsRun(s, steps)
    ensures Inv(Reached(s, steps))
    decreases |steps|
  {
    if steps != [] {
      RunInv(Next(s, steps[0]), steps[1..]);
    }
  }

  /** In every run nobody sleeps on an unlocked lock, and a locked one has exactly one holder. */
  lemma {:induction false} NobodySleepsUnlocked(steps: seq<Step>)
    requires IsRun(State(false, None, map[]), steps)
    ensures var r := Reached(State(false, None, map[]), steps);
            (r.locked <==> r.holder.Some?) && forall t :: t in r.waiting && r.waiting[t] ==> r.locked
  {
    RunInv(State(false, None, map[]), steps);
  }
}
