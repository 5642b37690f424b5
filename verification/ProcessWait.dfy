/** No process sleeps in `wait` over a zombie child, and every zombie is reaped once. */
module ProcessWait {
  import opened Options
  import opened Process
  import opened ProcessRuns

  ghost predicate ZombieChild(s: State, q: nat, p: nat) {
    q < |s.procs| && s.procs[q].parent == Some(p) && s.procs[q].state == Zombie
  }

  /** Asleep in `wait`, or past the point where it still looks at its children. */
  ghost predicate Settled(s: State, p: nat) {
    p < |s.procs|
        && (s.procs[p].state == Sleeping(Child(p)) || s.procs[p].pc.SleepLocked? || s.procs[p].pc.SleepReleased?)
  }

  /** An exiting process has just given the zombie `q` to init and is about to wake it. */
  ghost predicate Excused(s: State, init: nat, p: nat, q: nat) {
    && p == init && s.waitLock.Some? && s.waitLock.value < |s.procs|
    && s.procs[s.waitLock.value].pc.WakeInit?
    && s.procs[s.waitLock.value].pc.i == q && s.procs[s.waitLock.value].pc.j <= init
  }

  ghost predicate NoLost(s: State, init: nat) {
    forall p, q :: Settled(s, p) && ZombieChild(s, q, p) ==> Excused(s, init, p, q)
  }

  predicate Exiting(pc: Pc) {
    pc.Reparent? || pc.WakeInit? || pc.WakeParent? || pc.Dying? || pc.Died?
  }

  /** What the holder of the wait lock has made sure of. */
  ghost predicate HolderOk(s: State, init: nat, r: nat)
    requires r < |s.procs|
  {
    var pc := s.procs[r].pc;
    && (Exiting(pc) ==> r != init)
    && (pc.Scan? ==> forall q :: 0 <= q < pc.i ==> !ZombieChild(s, q, r))
    && (pc.WakeInit? && init < pc.j ==> !Settled(s, init))
    && (s.procs[r].parent.Some? && (pc.WakeParent? || pc.Dying? || pc.Died?) ==>
          (pc.WakeParent? ==> s.procs[r].parent.value < pc.j) ==> !Settled(s, s.procs[r].parent.value))
  }

  /** Init lives for ever and has no parent; nobody is its own parent. */
  ghost predicate Family(s: State, init: nat) {
    && init < |s.procs| && s.procs[init].state != Unused && !s.procs[init].state.Used? && s.procs[init].state != Zombie
    && s.procs[init].parent == None
    && forall q :: 0 <= q < |s.procs| && s.procs[q].parent.Some? ==>
      s.procs[q].parent.value < |s.procs| && s.procs[q].parent != Some(q)
  }

  ghost predicate Wait(s: State, init: nat) {
    Family(s, init) && NoLost(s, init)
        && (s.waitLock.Some? && s.waitLock.value < |s.procs| ==> HolderOk(s, init, s.waitLock.value))
  }

  /** Nobody becomes a zombie, gets a child or goes to sleep in `wait`, and the wait lock stays where it is. */
  ghost predicate Quiet(s: State, r: State, init: nat) {
    && |r.procs| == |s.procs| && r.waitLock == s.waitLock
    && (forall q :: 0 <= q < |s.procs| ==> r.procs[q].parent == s.procs[q].parent)
    && (forall q :: 0 <= q < |s.procs| ==> r.procs[q].state == Zombie ==> s.procs[q].state == Zombie)
    && (forall p :: Settled(r, p) ==> Settled(s, p))
    && (init < |s.procs| ==> r.procs[init].state != Unused && !r.procs[init].state.Used?)
    && (s.waitLock.Some? && s.waitLock.value < |s.procs| ==>
      r.procs[s.waitLock.value].pc == s.procs[s.waitLock.value].pc)
  }

  lemma {:induction false} QuietWait(s: State, r: State, init: nat)
    requires Wait(s, init) && Quiet(s, r, init)
    ensures Wait(r, init)
  {
    forall p, q | Settled(r, p) && ZombieChild(r, q, p) ensures Excused(r, init, p, q) {
      assert Settled(s, p) && ZombieChild(s, q, p);
    }
    if s.waitLock.Some? && s.waitLock.value < |s.procs| {
      var h := s.waitLock.value;
      forall q | 0 <= q < |s.procs| && ZombieChild(r, q, h) ensures ZombieChild(s, q, h) {
      }
    }
  }

  /** Moving a thread, but not to sleep, makes nobody a zombie or asleep. */
  lemma {:induction false} PcFacts(s: State, p: nat, pc: Pc)
    requires p < |s.procs| && !pc.SleepLocked? && !pc.SleepReleased?
    ensures forall x :: Settled(SetPc(s, p, pc), x) ==> Settled(s, x)
    ensures forall x, q :: ZombieChild(SetPc(s, p, pc), q, x) <==> ZombieChild(s, q, x)
  {
  }

  lemma {:induction false} FamilyPc(s: State, init: nat, p: nat, pc: Pc)
    requires p < |s.procs| && Family(s, init)
    ensures Family(SetPc(s, p, pc), init)
  {
    var r := SetPc(s, p, pc);
    forall q | 0 <= q < |r.procs| && r.procs[q].parent.Some?
      ensures r.procs[q].parent.value < |r.procs| && r.procs[q].parent != Some(q) {
      assert r.procs[q].parent == s.procs[q].parent;
    }
  }

  /** A thread with its own lock free is not on its way to sleep. */
  lemma {:induction false} FreeNotSettled(s: State, p: nat)
    requires Safe(s) && IsFree(s, p) && s.procs[p].state != Sleeping(Child(p))
    ensures !Settled(s, p)
  {
    assert HomeOk(s, p);
    assert s.procs[p].home.Some? ==> SlotOk(s, s.procs[p].home.value);
  }

  // ---- steps of wait -----------------------------------------------------------------------------------------

  lemma {:induction false} RunnerFacts(s: State, c: nat)
    requires Safe(s) && Runner(s, c)
    ensures var q := s.procs[s.cpus[c].p];
      q.home == Some(c) && q.pc != Dead && (q.state == Running || q.state == Zombie)
    ensures var q := s.procs[s.cpus[c].p]; q.lock == (if HoldsOwn(q.pc) then Some(Guard(c, false)) else None)
    ensures var q := s.procs[s.cpus[c].p]; (q.pc.Died? || q.pc.DiedReleased?) || q.state == Running
  {
    assert SlotOk(s, c);
  }

  lemma {:induction false} EnterWaitWait(s: State, init: nat, c: nat)
    requires Core(s) && Wait(s, init) && Enabled(s, init, EnterWait(c))
    ensures Wait(DoEnterWait(s, s.cpus[c].p), init)
  {
    hide Safe;
    RunnerFacts(s, c);
    var p := s.cpus[c].p;
    var r := DoEnterWait(s, p);
    assert forall x :: Settled(r, x) ==> Settled(s, x);
    assert forall x, q :: ZombieChild(r, q, x) ==> ZombieChild(s, q, x);
  }

  lemma {:induction false} ScanPastWait(s: State, init: nat, c: nat)
    requires Core(s) && Wait(s, init) && Enabled(s, init, ScanOne(c))
    requires !ZombieChild(s, s.procs[s.cpus[c].p].pc.i, s.cpus[c].p)
    ensures Wait(DoScan(s, s.cpus[c].p), init)
  {
    hide Safe, Settled, Family;
    var p := s.cpus[c].p;
    var i := s.procs[p].pc.i;
    assert s.waitLock == Some(p);
    NextSlotWait(s, init, p, s.procs[i].parent == Some(p) || s.procs[p].pc.kids);
  }

  lemma {:induction false} NextSlotWait(s: State, init: nat, p: nat, kids: bool)
    requires Wait(s, init) && p < |s.procs| && s.waitLock == Some(p) && s.procs[p].pc.Scan?
      && !ZombieChild(s, s.procs[p].pc.i, p)
    ensures Wait(SetPc(s, p, Scan(s.procs[p].pc.i + 1, kids)), init)
  {
    hide Settled, ZombieChild, Family;
    PcFacts(s, p, Scan(s.procs[p].pc.i + 1, kids));
    FamilyPc(s, init, p, Scan(s.procs[p].pc.i + 1, kids));
  }

  lemma {:induction false} ReapWait(s: State, init: nat, c: nat)
    requires Core(s) && Wait(s, init) && Enabled(s, init, ScanOne(c))
    requires ZombieChild(s, s.procs[s.cpus[c].p].pc.i, s.cpus[c].p)
    ensures Wait(DoScan(s, s.cpus[c].p), init)
  {
    hide Safe;
    RunnerFacts(s, c);
    var p := s.cpus[c].p;
    var r := DoScan(s, p);
    var i := s.procs[p].pc.i;
    assert s.waitLock == Some(p) && i != p && i != init;
    assert forall x :: Settled(r, x) ==> Settled(s, x);
    assert forall x, q :: ZombieChild(r, q, x) ==> ZombieChild(s, q, x);
  }

  lemma {:induction false} ScanFaultWait(s: State, init: nat, c: nat)
    requires Core(s) && Wait(s, init) && Enabled(s, init, ScanFault(c))
    ensures Wait(DoScanFault(s, s.cpus[c].p), init)
  {
    hide Safe;
    RunnerFacts(s, c);
    var r := DoScanFault(s, s.cpus[c].p);
    assert s.waitLock == Some(s.cpus[c].p);
    assert forall x :: Settled(r, x) ==> Settled(s, x);
    assert forall x, q :: ZombieChild(r, q, x) ==> ZombieChild(s, q, x);
  }

  lemma {:induction false} ScanEndWait(s: State, init: nat, c: nat)
    requires Core(s) && Wait(s, init) && Enabled(s, init, ScanEnd(c))
    ensures Wait(DoScanEnd(s, c, s.cpus[c].p), init)
  {
    hide Safe;
    RunnerFacts(s, c);
    var p := s.cpus[c].p;
    var r := DoScanEnd(s, c, p);
    assert s.waitLock == Some(p);
    assert forall x :: Settled(r, x) && x != p ==> Settled(s, x);
    assert forall x, q :: ZombieChild(r, q, x) ==> ZombieChild(s, q, x);
  }

  lemma {:induction false} SleepReleaseWait(s: State, init: nat, c: nat)
    requires Core(s) && Wait(s, init) && Enabled(s, init, SleepRelease(c))
    ensures Wait(Next(s, init, SleepRelease(c)), init)
  {
    hide Safe;
    RunnerFacts(s, c);
    var p := s.cpus[c].p;
    var r := Next(s, init, SleepRelease(c));
    assert s.waitLock == Some(p);
    assert forall x :: Settled(r, x) ==> Settled(s, x);
    assert forall x, q :: ZombieChild(r, q, x) ==> ZombieChild(s, q, x);
  }

  // ---- steps of exit -----------------------------------------------------------------------------------------

  lemma {:induction false} EnterExitWait(s: State, init: nat, c: nat)
    requires Core(s) && Wait(s, init) && Enabled(s, init, EnterExit(c))
    ensures Wait(Next(s, init, EnterExit(c)), init)
  {
    hide Safe;
    RunnerFacts(s, c);
    var r := Next(s, init, EnterExit(c));
    assert forall x :: Settled(r, x) ==> Settled(s, x);
    assert forall x, q :: ZombieChild(r, q, x) ==> ZombieChild(s, q, x);
  }

  lemma {:induction false} GiveAwayWait(s: State, init: nat, c: nat)
    requires Core(s) && Wait(s, init) && Enabled(s, init, ReparentOne(c))
    requires var i := s.procs[s.cpus[c].p].pc.i; i < |s.procs| && s.procs[i].parent == Some(s.cpus[c].p)
    ensures Wait(DoReparent(s, init, s.cpus[c].p), init)
  {
    hide Safe;
    RunnerFacts(s, c);
    var p := s.cpus[c].p;
    var r := DoReparent(s, init, p);
    var i := s.procs[p].pc.i;
    assert s.waitLock == Some(p) && i != p && i != init;
    assert r.procs[p].pc == WakeInit(i, 0);
    assert forall x :: Settled(r, x) ==> Settled(s, x);
    assert forall x, q :: ZombieChild(r, q, x) && q != i ==> ZombieChild(s, q, x);
    forall x, q | Settled(r, x) && ZombieChild(r, q, x) ensures Excused(r, init, x, q) {
      assert q != i ==> ZombieChild(s, q, x) && !Excused(s, init, x, q);
    }
  }

  lemma {:induction false} ReparentWait(s: State, init: nat, c: nat)
    requires Core(s) && Wait(s, init) && Enabled(s, init, ReparentOne(c))
    requires var i := s.procs[s.cpus[c].p].pc.i; i >= |s.procs| || s.procs[i].parent != Some(s.cpus[c].p)
    ensures Wait(DoReparent(s, init, s.cpus[c].p), init)
  {
    hide Safe;
    RunnerFacts(s, c);
    var p := s.cpus[c].p;
    var r := DoReparent(s, init, p);
    assert s.waitLock == Some(p);
    assert forall x :: Settled(r, x) ==> Settled(s, x);
    assert forall x, q :: ZombieChild(r, q, x) ==> ZombieChild(s, q, x);
  }

  lemma {:induction false} WakeSlotSettled(s: State, p: nat, j: nat, x: nat)
    requires Safe(s) && CanWake(s, p, j)
    ensures Settled(WakeSlot(s, p, j, Child(x)), x) ==> Settled(s, x) && (j == x ==> j == p)
  {
    if j == x && j != p {
      FreeNotSettled(WakeSafe(s, p, j, x), x);
    }
  }

  ghost function WakeSafe(s: State, p: nat, j: nat, x: nat): (r: State)
    requires Safe(s) && CanWake(s, p, j) && j != p
    ensures r == WakeSlot(s, p, j, Child(x)) && Safe(r)
  {
    WakeSlotSafe(s, p, j, x);
    WakeSlot(s, p, j, Child(x))
  }

  lemma {:induction false} WakeSlotSafe(s: State, p: nat, j: nat, x: nat)
    requires Safe(s) && CanWake(s, p, j) && j != p
    ensures Safe(WakeSlot(s, p, j, Child(x)))
  {
    var r := WakeSlot(s, p, j, Child(x));
    if s.procs[j].state != Running {
      AwayIfFree(s, j);
    }
    forall d | 0 <= d < |r.cpus| ensures SlotOk(r, d) {
      assert SlotOk(s, d);
    }
    forall q | 0 <= q < |r.procs| ensures HomeOk(r, q) && ForkOk(r, q) {
      assert HomeOk(s, q) && ForkOk(s, q);
    }
  }

  lemma {:induction false} WakeSlotWait(s: State, init: nat, p: nat, j: nat, token: Token)
    requires Wait(s, init) && CanWake(s, p, j) && p < |s.procs|
    ensures Wait(WakeSlot(s, p, j, token), init)
  {
    var r := WakeSlot(s, p, j, token);
    assert forall x :: Settled(r, x) ==> Settled(s, x);
    QuietWait(s, r, init);
  }

  /** The next slot of a wakeup loop, once a sleeper that was to be woken is awake. */
  lemma {:induction false} AdvanceWait(s: State, init: nat, p: nat, pc: Pc)
    requires Wait(s, init) && p < |s.procs| && s.waitLock == Some(p)
    requires || (s.procs[p].pc.WakeInit? && pc == WakeInit(s.procs[p].pc.i, s.procs[p].pc.j + 1)
                 && (s.procs[p].pc.j == init ==> !Settled(s, init)))
             || (s.procs[p].pc.WakeParent? && pc == WakeParent(s.procs[p].pc.j + 1)
                 && (s.procs[p].parent == Some(s.procs[p].pc.j) ==> !Settled(s, s.procs[p].pc.j)))
    ensures Wait(SetPc(s, p, pc), init)
  {
    hide Settled, ZombieChild, Family;
    PcFacts(s, p, pc);
    FamilyPc(s, init, p, pc);
  }

  lemma {:induction false} WakeInitWait(s: State, init: nat, c: nat)
    requires Core(s) && Wait(s, init) && Enabled(s, init, WakeInitOne(c)) && s.procs[s.cpus[c].p].pc.j < |s.procs|
    ensures Wait(DoWakeInit(s, init, s.cpus[c].p), init)
  {
    hide Safe, NoLost, Family, Settled, ZombieChild;
    var p := s.cpus[c].p;
    var j := s.procs[p].pc.j;
    assert s.waitLock == Some(p) && p != init;
    WakeSlotWait(s, init, p, j, Child(init));
    WakeSlotSettled(s, p, j, init);
    var n := WakeSlot(s, p, j, Child(init));
    assert n.procs[p] == s.procs[p];
    AdvanceWait(n, init, p, WakeInit(s.procs[p].pc.i, j + 1));
  }

  lemma {:induction false} WakeInitEndWait(s: State, init: nat, c: nat)
    requires Core(s) && Wait(s, init) && Enabled(s, init, WakeInitOne(c)) && s.procs[s.cpus[c].p].pc.j >= |s.procs|
    ensures Wait(DoWakeInit(s, init, s.cpus[c].p), init)
  {
    hide Safe;
    RunnerFacts(s, c);
    var p := s.cpus[c].p;
    var r := DoWakeInit(s, init, p);
    assert s.waitLock == Some(p);
    assert forall x :: Settled(r, x) ==> Settled(s, x);
    assert forall x, q :: ZombieChild(r, q, x) ==> ZombieChild(s, q, x);
  }

  lemma {:induction false} NotOwnParent(s: State, init: nat, i: nat)
    requires Family(s, init) && i < |s.procs|
    ensures s.procs[i].parent != Some(i)
  {
  }

  lemma {:induction false} WakeParentWait(s: State, init: nat, c: nat)
    requires Core(s) && Wait(s, init) && Enabled(s, init, WakeParentOne(c)) && s.procs[s.cpus[c].p].pc.j < |s.procs|
    ensures Wait(DoWakeParent(s, s.cpus[c].p), init)
  {
    hide Safe, NoLost, HolderOk, Family, Settled, ZombieChild;
    var p := s.cpus[c].p;
    var j := s.procs[p].pc.j;
    assert s.waitLock == Some(p);
    if s.procs[p].parent == None {
      AdvanceWait(s, init, p, WakeParent(j + 1));
    } else {
      var x := s.procs[p].parent.value;
      NotOwnParent(s, init, p);
      WakeSlotWait(s, init, p, j, Child(x));
      WakeSlotSettled(s, p, j, x);
      var n := WakeSlot(s, p, j, Child(x));
      assert n.procs[p] == s.procs[p];
      AdvanceWait(n, init, p, WakeParent(j + 1));
    }
  }

  lemma {:induction false} WakeParentEndWait(s: State, init: nat, c: nat)
    requires Core(s) && Wait(s, init) && Enabled(s, init, WakeParentOne(c)) && s.procs[s.cpus[c].p].pc.j >= |s.procs|
    ensures Wait(DoWakeParent(s, s.cpus[c].p), init)
  {
    hide Safe;
    RunnerFacts(s, c);
    var p := s.cpus[c].p;
    var r := DoWakeParent(s, p);
    assert s.waitLock == Some(p);
    assert forall x :: Settled(r, x) ==> Settled(s, x);
    assert forall x, q :: ZombieChild(r, q, x) ==> ZombieChild(s, q, x);
  }

  lemma {:induction false} DieWait(s: State, init: nat, c: nat)
    requires Core(s) && Wait(s, init) && Enabled(s, init, TakeOwnLock(c))
    ensures Wait(DoDie(s, c, s.cpus[c].p), init)
  {
    hide Safe;
    RunnerFacts(s, c);
    var p := s.cpus[c].p;
    var r := DoDie(s, c, p);
    assert s.waitLock == Some(p);
    assert forall x :: Settled(r, x) ==> Settled(s, x);
    assert forall x, q :: ZombieChild(r, q, x) && q != p ==> ZombieChild(s, q, x);
  }

  lemma {:induction false} DieReleaseWait(s: State, init: nat, c: nat)
    requires Core(s) && Wait(s, init) && Enabled(s, init, DieRelease(c))
    ensures Wait(Next(s, init, DieRelease(c)), init)
  {
    hide Safe;
    RunnerFacts(s, c);
    var r := Next(s, init, DieRelease(c));
    assert s.waitLock == Some(s.cpus[c].p);
    assert forall x :: Settled(r, x) ==> Settled(s, x);
    assert forall x, q :: ZombieChild(r, q, x) ==> ZombieChild(s, q, x);
  }

  // ---- fork --------------------------------------------------------------------------------------------------

  lemma {:induction false} ForkFacts(s: State, p: nat)
    requires Safe(s) && p < |s.procs|
    ensures ForkOk(s, p)
  {
  }

  lemma {:induction false} UnlockedWait(s: State, r: State, init: nat)
    requires NoLost(s, init) && s.waitLock == None && r.waitLock == None && Family(r, init)
    requires forall x :: Settled(r, x) ==> Settled(s, x)
    requires forall x, q :: ZombieChild(r, q, x) ==> ZombieChild(s, q, x)
    ensures Wait(r, init)
  {
    hide Settled, ZombieChild, Family;
  }

  lemma {:induction false} LinkWait(s: State, init: nat, p: nat, q: nat)
    requires Wait(s, init) && s.waitLock == None && p < |s.procs| && q < |s.procs| && q != p && s.procs[q].state.Used?
    ensures Wait(Put(s, q, s.procs[q].(parent := Some(p))), init)
  {
    var r := Put(s, q, s.procs[q].(parent := Some(p)));
    UnlockedWait(s, r, init);
  }

  lemma {:induction false} ForkLinkWait(s: State, init: nat, c: nat)
    requires Core(s) && Wait(s, init) && Enabled(s, init, ForkLink(c))
    ensures Wait(DoForkLink(s, s.cpus[c].p), init)
  {
    hide Safe, HolderOk, Family, Settled, ZombieChild;
    var p := s.cpus[c].p;
    ForkFacts(s, p);
    var q := s.procs[p].pc.child;
    LinkWait(s, init, p, q);
    var n := Put(s, q, s.procs[q].(parent := Some(p)));
    PcFacts(n, p, ForkSetup(q));
    FamilyPc(n, init, p, ForkSetup(q));
    UnlockedWait(n, SetPc(n, p, ForkSetup(q)), init);
  }

  // ---- all steps ---------------------------------------------------------------------------------------------

  ghost predicate Inv(s: State, init: nat) {
    Core(s) && Wait(s, init)
  }

  lemma {:induction false} ForkQuiet(s: State, init: nat, c: nat, q: nat)
    requires Core(s) && Wait(s, init) && Enabled(s, init, Fork(c, q))
    ensures Wait(DoFork(s, c, s.cpus[c].p, q), init)
  {
    var p := s.cpus[c].p;
    AwayIfFree(s, q);
    hide Safe;
    RunnerFacts(s, c);
    var r := DoFork(s, c, p, q);
    assert forall x :: Settled(r, x) ==> Settled(s, x);
    assert s.waitLock != Some(p) && s.waitLock != Some(q);
    QuietWait(s, r, init);
  }

  lemma {:induction false} ForkUnlockQuiet(s: State, init: nat, c: nat)
    requires Core(s) && Wait(s, init) && Enabled(s, init, ForkUnlock(c))
    ensures Wait(DoForkUnlock(s, s.cpus[c].p), init)
  {
    hide Safe, NoLost, HolderOk;
    var p := s.cpus[c].p;
    var r := DoForkUnlock(s, p);
    assert forall x :: Settled(r, x) ==> Settled(s, x);
    assert s.waitLock != Some(p);
    QuietWait(s, r, init);
  }

  lemma {:induction false} ForkDoneQuiet(s: State, init: nat, c: nat)
    requires Core(s) && Wait(s, init) && Enabled(s, init, ForkDone(c))
    ensures Wait(DoForkDone(s, s.cpus[c].p), init)
  {
    var p := s.cpus[c].p;
    ForkFacts(s, p);
    AwayIfFree(s, s.procs[p].pc.child);
    hide Safe, NoLost, Family, HolderOk;
    var r := DoForkDone(s, p);
    NewProcess(s, init, p, s.procs[p].pc.child);
    QuietWait(s, r, init);
  }

  lemma {:induction false} NewProcess(s: State, init: nat, p: nat, q: nat)
    requires WaitHeld(s) && p < |s.procs| && s.procs[p].pc == ForkSetup(q) && q < |s.procs| && q != p
    requires s.procs[q].state.Used? && s.procs[q].pc == Kernel
      && (init < |s.procs| ==> s.procs[init].state != Unused && !s.procs[init].state.Used?)
    ensures Quiet(s, DoForkDone(s, p), init)
  {
    var r := DoForkDone(s, p);
    forall x | Settled(r, x) ensures Settled(s, x) {
      assert x != q;
    }
  }

  lemma {:induction false} LeaveQuiet(s: State, init: nat, c: nat, state: ProcessState, pc: Pc)
    requires Core(s) && Wait(s, init) && Runner(s, c)
    requires var q := s.procs[s.cpus[c].p];
             || (state == Runnable && Preemptible(q.pc) && pc == q.pc)
             || (state.Sleeping? && state.on.Other? && q.pc == Kernel && pc == Kernel)
             || (state == Sleeping(Child(s.cpus[c].p)) && q.pc == SleepReleased && pc == SleepDone)
             || (state == Zombie == q.state && q.pc == DiedReleased && pc == Dead)
    ensures Wait(SetPc(Leave(s, c, s.cpus[c].p, state), s.cpus[c].p, pc), init)
  {
    hide Safe;
    RunnerFacts(s, c);
    var p := s.cpus[c].p;
    var r := SetPc(Leave(s, c, p, state), p, pc);
    assert forall x :: Settled(r, x) ==> Settled(s, x);
    assert s.waitLock != Some(p);
    QuietWait(s, r, init);
  }

  /** The scheduler's own steps, and wakeups by others. */
  lemma {:induction false} PlainQuiet(s: State, init: nat, step: Step)
    requires Inv(s, init) && Enabled(s, init, step)
    requires step.Dispatch? || step.Assign? || step.Release? || step.WakeOne? || step.Kill?
    ensures Wait(Next(s, init, step), init)
  {
    hide Safe;
    var r := Next(s, init, step);
    assert forall x :: Settled(r, x) ==> Settled(s, x);
    QuietWait(s, r, init);
  }
}
