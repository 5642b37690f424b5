/** What the driver promises: no deadlock, and every request carried out exactly once before its caller returns. */
module VirtioResults {
  import opened Options
  import opened Sets
  import opened Virtio
  import opened VirtioQueue
  import opened VirtioRuns

  /** `steps` can be taken from `s`, one after the other. */
  ghost predicate IsRun(n: nat, s: State, steps: seq<Step>)
    requires QueueSize(n) && Inv(n, s)
    decreases |steps|
  {
    steps == [] || (Enabled(s, steps[0]) && (StepInv(n, s, steps[0]); IsRun(n, Next(n, s, steps[0]), steps[1..])))
  }

  ghost function Reached(n: nat, s: State, steps: seq<Step>): (r: State)
    requires QueueSize(n) && Inv(n, s) && IsRun(n, s, steps)
    ensures Inv(n, r)
    decreases |steps|
  {
    if steps == [] then s else
      StepInv(n, s, steps[0]);
      Reached(n, Next(n, s, steps[0]), steps[1..])
  }

  /** Descriptor allocation never deadlocks: in every reachable state at most one caller holds a partial chain, of
      exactly `n % 3` descriptors; and while a caller sleeps for a descriptor, none is free and a complete chain is
      under way. */
  lemma {:induction false} AllocationNeverDeadlocks(n: nat, s: State, steps: seq<Step>)
    requires Initial(n, s) && Inv(n, s) && IsRun(n, s, steps)
    ensures var r := Reached(n, s, steps);
            && (forall t, u :: Partial(r, t) && Partial(r, u) ==> t == u)
            && (forall t :: Partial(r, t) ==> |r.calls[t].held| == n % 3)
            && (forall t :: t in r.calls && r.calls[t].asleep && !r.calls[t].submitted ==>
                  AllTaken(r.taken) && exists u :: u in r.calls && r.calls[u].submitted)
  {
    hide Owned, QInv, QueueSize, Reached, IsRun, FreeCount, AllTaken;
    var r := Reached(n, s, steps);
    SizeBound(n);
    if t :| t in r.calls && r.calls[t].asleep && !r.calls[t].submitted {
      assert SleepAt(r, t);
      var u := ChainOutstanding(n, r);
      assert r.calls[u].submitted;
    }
  }

  /** Something can move: a caller that is awake, the device, or the handler. */
  ghost predicate Moves(s: State, step: Step) {
    Enabled(s, step) && (step.Run? || step.Fetch? || step.Complete? || step.Handle?)
  }

  /** A submission that is not finished keeps the device or the handler going. */
  lemma {:induction false} LiveMoves(n: nat, s: State, k: nat) returns (step: Step)
    requires QueueSize(n) && Inv(n, s) && k < |s.h.sub| && Live(s, k)
    ensures Moves(s, step)
  {
    hide Owned, Counted, Rings, Waits, QueueSize;
    assert StageAt(s, k);
    SizeBound(n);
    match s.h.stage[k]
    case Queued =>
      AvailBound(n, s);
      WrappedEqual(s.h.fetched, |s.h.sub|);
      step := Fetch;
    case Inside => step := Complete(s.h.sub[k].head);
    case Done(j) =>
      UsedBound(n, s);
      WrappedEqual(s.h.handled, |s.h.completed|);
      step := Handle;
  }

  /** As long as a call is under way, some step other than a new call can be taken. */
  lemma {:induction false} AlwaysMoves(n: nat, s: State) returns (step: Step)
    requires QueueSize(n) && Inv(n, s) && s.calls != map[]
    ensures Moves(s, step)
  {
    hide Owned, Counted, Rings, Stages, Linked, QueueSize, FreeCount, AllTaken;
    var t :| t in s.calls;
    if !s.calls[t].asleep {
      step := Run(t);
    } else {
      assert SleepAt(s, t);
      var u := t;
      if !s.calls[t].submitted {
        SizeBound(n);
        u := ChainOutstanding(n, s);
        assert s.calls[u].submitted;
      }
      if !s.calls[u].asleep {
        step := Run(u);
      } else {
        assert SleepAt(s, u) && CallAt(n, s, u);
        step := LiveMoves(n, s, s.calls[u].serial);
      }
    }
  }

  // ---- every call returns ------------------------------------------------------------------------------------

  ghost function Allocating(s: State): set<nat> {
    set t | t in s.calls && !s.calls[t].submitted
  }

  ghost function Running(s: State): set<nat> {
    set t | t in s.calls && !s.calls[t].asleep
  }

  /** What the device and the handler still have to do. */
  ghost function Pending(s: State): int {
    3 * (|s.h.sub| - s.h.fetched) + 2 * |s.dev.inside| + (|s.h.completed| - s.h.handled)
  }

  /** The work that is left: calls to return, chains to submit, device and handler steps, callers to fall asleep. */
  ghost predicate Less(s: State, r: State) {
    || |s.calls.Keys| < |r.calls.Keys|
    || (|s.calls.Keys| == |r.calls.Keys| &&
        (|| |Allocating(s)| < |Allocating(r)|
         || (|Allocating(s)| == |Allocating(r)| &&
             (Pending(s) < Pending(r) || (Pending(s) == Pending(r) && |Running(s)| < |Running(r)|)))))
  }

  lemma {:induction false} AsleepLess(s: State, t: nat)
    requires t in s.calls && !s.calls[t].asleep
    ensures Less(Asleep(s, t), s)
  {
    var r := Asleep(s, t);
    assert r.calls.Keys == s.calls.Keys;
    assert Allocating(r) == Allocating(s);
    Smaller(Running(r), Running(s), t);
  }

  lemma {:induction false} SubmitLess(n: nat, s: State, t: nat)
    requires Sized(n, s) && t in s.calls && !s.calls[t].submitted && |s.calls[t].held| == 3
      && InRange(n, s.calls[t].held)
    ensures Less(Submit(s, t), s)
  {
    hide Written;
    var r := Submit(s, t);
    assert r.calls.Keys == s.calls.Keys;
    Smaller(Allocating(r), Allocating(s), t);
  }

  lemma {:induction false} ReturnLess(s: State, t: nat)
    requires t in s.calls
    ensures Less(Return(s, t), s)
  {
    hide Release;
    var r := Return(s, t);
    Smaller(r.calls.Keys, s.calls.Keys, t);
  }

  /** A run of the allocation loop leaves the same work, before the caller submits or falls asleep. */
  lemma {:induction false} GrabLess(s: State, g: State, r: State, t: nat)
    requires t in s.calls && t in g.calls && g.calls == s.calls[t := s.calls[t].(held := g.calls[t].held)]
    requires g.h == s.h && g.dev == s.dev && Less(r, g)
    ensures Less(r, s)
  {
    assert g.calls.Keys == s.calls.Keys;
    assert Allocating(g) == Allocating(s);
    assert Running(g) == Running(s);
  }

  lemma {:induction false} RunLess(n: nat, s: State, t: nat)
    requires QueueSize(n) && Inv(n, s) && Enabled(s, Run(t))
    ensures Less(Next(n, s, Run(t)), s)
  {
    hide QueueSize, Less, Rings, Stages, Linked, FreeCount, Grab, Submit, Return, Counted;
    if s.calls[t].submitted {
      assert CallAt(n, s, t);
      if s.q.info[s.calls[t].held[0]].inUse {
        AsleepLess(s, t);
      } else {
        ReturnLess(s, t);
      }
    } else {
      GrabSpec(n, s, t);
      var g := Grab(s, t);
      HeldFacts(n, g, t);
      if |g.calls[t].held| == 3 {
        IsSized(n, g);
        SubmitLess(n, g, t);
        GrabLess(s, g, Submit(g, t), t);
      } else {
        AsleepLess(g, t);
        GrabLess(s, g, Asleep(g, t), t);
      }
    }
  }

  lemma {:induction false} DeviceLess(s: State, r: State)
    requires r.calls.Keys == s.calls.Keys && Pending(r) < Pending(s)
    requires forall t :: t in s.calls ==> r.calls[t].submitted == s.calls[t].submitted
    ensures Less(r, s)
  {
    assert Allocating(r) == Allocating(s);
  }

  lemma {:induction false} FetchLess(n: nat, s: State)
    requires CanFetch(n, s)
    ensures Less(DoFetch(s), s)
  {
    hide QueueSize, Less, Owned, Rings, Waits;
    FetchSpec(n, s);
    var head := s.h.sub[s.h.fetched].head;
    if head in s.dev.inside {
      assert InsideAt(s, head);
      SameHead(n, s, s.h.fetched, s.dev.inside[head]);
    }
    assert |s.dev.inside[head := s.h.fetched]| == |s.dev.inside| + 1;
    DeviceLess(s, DoFetch(s));
  }

  /** Every step but a new call or a wakeup from outside leaves less work. */
  lemma {:induction false} MoveLess(n: nat, s: State, step: Step)
    requires QueueSize(n) && Inv(n, s) && Moves(s, step)
    ensures Less(Next(n, s, step), s)
  {
    hide QueueSize, Less, Owned, Counted, Rings, Waits, Decode;
    match step
    case Run(t) => RunLess(n, s, t);
    case Fetch =>
      FetchLess(n, s);
    case Complete(head) =>
      RemoveSize(s.dev.inside, head);
      DeviceLess(s, DoComplete(s, head));
    case Handle =>
      var k, t := HandleSpec(n, s);
      DeviceLess(s, DoHandle(s));
  }

  lemma {:induction false} RemoveSize(m: map<nat, nat>, x: nat)
    requires x in m
    ensures |m - {x}| == |m| - 1
  {
    assert m == (m - {x})[x := m[x]];
  }

  /** `steps` are the ones the schedule gives, from `time` on. */
  ghost predicate Follows(n: nat, s: State, time: nat, schedule: (nat, State) -> Step, steps: seq<Step>)
    requires QueueSize(n) && Inv(n, s) && IsRun(n, s, steps)
    decreases |steps|
  {
    steps == [] || (steps[0] == schedule(time, s) &&
                    (StepInv(n, s, steps[0]); Follows(n, Next(n, s, steps[0]), time + 1, schedule, steps[1..])))
  }

  /** Whatever order the callers, the device and the handler move in, the calls under way all return.  The schedule
      gives the step taken at each time in each state. */
  lemma {:induction false} EveryCallReturns(n: nat, s: State, time: nat, schedule: (nat, State) -> Step)
      returns (steps: seq<Step>)
    requires QueueSize(n) && Inv(n, s)
    requires forall i, r :: Inv(n, r) && r.calls != map[] ==> Moves(r, schedule(i, r))
    ensures IsRun(n, s, steps) && Follows(n, s, time, schedule, steps) && Reached(n, s, steps).calls == map[]
    decreases |s.calls.Keys|, |Allocating(s)|, Pending(s), |Running(s)|
  {
    hide QueueSize, Inv, Next, Allocating, Running, Pending, Moves;
    if s.calls == map[] {
      steps := [];
    } else {
      var step := schedule(time, s);
      assert Moves(s, step);
      assert Enabled(s, step) by { MovesEnabled(s, step); }
      StepInv(n, s, step);
      MoveLess(n, s, step);
      PendingBound(n, s);
      PendingBound(n, Next(n, s, step));
      var rest := EveryCallReturns(n, Next(n, s, step), time + 1, schedule);
      steps := [step] + rest;
      assert steps[1..] == rest;
    }
  }

  lemma {:induction false} MovesEnabled(s: State, step: Step)
    requires Moves(s, step)
    ensures Enabled(s, step)
  {
  }

  lemma {:induction false} PendingBound(n: nat, s: State)
    requires Inv(n, s)
    ensures Pending(s) >= 0
  {
  }

  // ---- exactly once ------------------------------------------------------------------------------------------

  /** A caller returns only after the device has carried out its own request, exactly once, and has reported it. */
  lemma {:induction false} ExactlyOnce(n: nat, s: State, t: nat) returns (j: nat)
    requires QueueSize(n) && Inv(n, s) && Enabled(s, Run(t)) && t !in Next(n, s, Run(t)).calls
    ensures j < s.h.handled && j < |s.h.completed| && j < |s.h.performed|
    ensures s.calls[t].submitted && s.h.completed[j] == s.calls[t].serial
    ensures s.h.performed[j] == Some(Asked(s.calls[t].args))
    ensures forall i :: 0 <= i < |s.h.completed| && i != j ==> s.h.completed[i] != s.calls[t].serial
  {
    hide QueueSize, Owned, Counted, Rings, Linked, Written;
    if s.calls[t].submitted {
      assert CallAt(n, s, t);
      var k := s.calls[t].serial;
      assert StageAt(s, k);
      j := s.h.stage[k].at;
      assert DoneAt(s, j);
      forall i | 0 <= i < |s.h.completed| && i != j ensures s.h.completed[i] != k {
        assert DoneAt(s, i);
      }
    } else {
      GrabSpec(n, s, t);
      assert false;
    }
  }
}
