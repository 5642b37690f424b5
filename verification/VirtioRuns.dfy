/** Runs of the driver and the device: the invariants hold in every reachable state. */
module VirtioRuns {
  import opened Arith
  import opened Options
  import opened Virtio
  import opened VirtioQueue

  // ---- steps of callers --------------------------------------------------------------------------------------

  /** The same caller at the same place, awake or asleep. */
  ghost predicate Same(c: Call, d: Call) {
    c.args == d.args && c.held == d.held && c.submitted == d.submitted && c.serial == d.serial
  }

  /** Only callers that have published nothing came, went or changed. */
  ghost predicate SameSubmitted(s: State, r: State) {
    && r.q == s.q && r.dev == s.dev && r.h == s.h
    && (forall t :: t in s.calls && s.calls[t].submitted ==> t in r.calls && Same(s.calls[t], r.calls[t]))
    && (forall t :: t in r.calls && r.calls[t].submitted ==> t in s.calls && Same(s.calls[t], r.calls[t]))
  }

  lemma {:induction false} QFrame(n: nat, s: State, r: State)
    requires QInv(n, s) && SameSubmitted(s, r) && Sized(n, r)
    ensures QInv(n, r)
  {
    hide Linked;
    forall k | 0 <= k < |r.h.sub| && Live(r, k) ensures LiveAt(r, k) {
      assert Live(s, k) && LiveAt(s, k);
    }
    forall t | t in r.calls ensures CallAt(n, r, t) {
      if r.calls[t].submitted {
        assert CallAt(n, s, t);
        SameLinked(s.q, s.calls[t], r.calls[t]);
      }
    }
    assert Rings(n, r) && Stages(r) by {
      hide Waits;
      RingsFrame(n, s, r);
    }
  }

  lemma {:induction false} SameLinked(q: Queue, c: Call, d: Call)
    requires |c.held| == 3 && InRange(|q.desc|, c.held) && |q.desc| == |q.ops| == |q.info| && Linked(q, c) && Same(c, d)
    ensures Linked(q, d)
  {
  }

  lemma {:induction false} RingsFrame(n: nat, s: State, r: State)
    requires n > 0 && Sized(n, s) && Indexes(s) && Rings(n, s) && Stages(s)
    requires Sized(n, r) && r.q == s.q && r.dev == s.dev && r.h == s.h
    ensures Indexes(r) && Rings(n, r) && Stages(r)
  {
    forall k | r.h.fetched <= k < |r.h.sub| ensures AvailAt(n, r, k) {
      assert AvailAt(n, s, k);
    }
    forall j | r.h.handled <= j < |r.h.completed| ensures UsedAt(n, r, j) {
      assert UsedAt(n, s, j);
    }
    forall k | 0 <= k < |r.h.sub| ensures StageAt(r, k) {
      assert StageAt(s, k);
    }
    forall head | head in r.dev.inside ensures InsideAt(r, head) {
      assert InsideAt(s, head);
    }
    forall j | 0 <= j < |r.h.completed| ensures DoneAt(r, j) {
      assert DoneAt(s, j);
    }
  }

  lemma {:induction false} ReturnQueue(n: nat, s: State, t: nat)
    requires Owned(n, s) && QInv(n, s) && t in s.calls && s.calls[t].submitted && |s.calls[t].held| == 3
    requires s.calls[t].held[0] < n && !s.q.info[s.calls[t].held[0]].inUse
    ensures QInv(n, Return(s, t))
  {
    hide Linked, Release;
    var r := Return(s, t);
    assert CallAt(n, s, t);
    forall k | 0 <= k < |r.h.sub| && Live(r, k) ensures LiveAt(r, k) {
      assert Live(s, k) && LiveAt(s, k);
    }
    forall u | u in r.calls ensures CallAt(n, r, u) {
      if r.calls[u].submitted {
        assert CallAt(n, s, u);
      }
    }
    assert Rings(n, r) && Stages(r) by {
      RingsFrame(n, s, r);
    }
  }

  // ---- publishing a chain ------------------------------------------------------------------------------------

  ghost predicate Ready(n: nat, s: State, t: nat) {
    && QueueSize(n) && Owned(n, s) && QInv(n, s) && t in s.calls && !s.calls[t].submitted && |s.calls[t].held| == 3
    && InRange(n, s.calls[t].held)
  }

  lemma {:induction false} SubmitRings(n: nat, s: State, t: nat)
    requires Ready(n, s, t)
    ensures var r := Submit(s, t); Sized(n, r) && Indexes(r) && Rings(n, r)
  {
    hide Owned, Waits, Stages, QueueSize;
    var r := Submit(s, t);
    var m := |s.h.sub|;
    WrappedNext(m);
    WrappedSlot(n, m);
    AvailRoom(n, s, t);
    forall k | r.h.fetched <= k < |r.h.sub| ensures AvailAt(n, r, k) {
      if k < m {
        assert AvailAt(n, s, k);
        SlotsApart(n, k, m);
      }
    }
    forall j | r.h.handled <= j < |r.h.completed| ensures UsedAt(n, r, j) {
      assert UsedAt(n, s, j);
    }
  }

  lemma {:induction false} SubmitStages(n: nat, s: State, t: nat)
    requires Ready(n, s, t) && Indexes(Submit(s, t))
    ensures Stages(Submit(s, t))
  {
    hide Owned, Waits, Rings, QueueSize;
    var r := Submit(s, t);
    forall k | 0 <= k < |r.h.sub| ensures StageAt(r, k) {
      assert k < |s.h.sub| ==> StageAt(s, k);
    }
    forall head | head in r.dev.inside ensures InsideAt(r, head) {
      assert InsideAt(s, head);
    }
    forall j | 0 <= j < |r.h.completed| ensures DoneAt(r, j) {
      assert DoneAt(s, j);
    }
  }

  lemma {:induction false} OthersLinked(n: nat, s: State, t: nat, u: nat)
    requires Ready(n, s, t) && u in s.calls && u != t && s.calls[u].submitted && CallAt(n, s, u)
    ensures var q := Submit(s, t).q;
            Linked(q, s.calls[u]) && q.info[s.calls[u].held[0]] == s.q.info[s.calls[u].held[0]]
  {
    hide Owned, Rings, Stages, Waits, QueueSize;
    var h, g := s.calls[t].held, s.calls[u].held;
    forall k, l | 0 <= k < 3 && 0 <= l < 3 ensures h[k] != g[l] {
      if h[k] == g[l] {
        Disjoint(n, s, t, u, k, l);
      }
    }
    assert g[0] != h[0] && g[0] != h[1] && g[0] != h[2];
    assert g[1] != h[0] && g[1] != h[1] && g[1] != h[2];
    assert g[2] != h[0] && g[2] != h[1] && g[2] != h[2];
  }

  lemma {:induction false} OwnLinked(n: nat, s: State, t: nat)
    requires Ready(n, s, t)
    ensures var r := Submit(s, t); Linked(r.q, r.calls[t]) && r.q.info[r.calls[t].held[0]].inUse
  {
    hide Owned, Rings, Stages, Waits, QueueSize;
    HeldFacts(n, s, t);
    var h := s.calls[t].held;
    assert h[0] != h[1] && h[0] != h[2] && h[1] != h[2];
  }

  lemma {:induction false} SubmitWaits(n: nat, s: State, t: nat)
    requires Ready(n, s, t) && Indexes(Submit(s, t))
    ensures Waits(n, Submit(s, t))
  {
    hide Owned, Rings, Stages, Linked, QueueSize, Written;
    var r := Submit(s, t);
    assert Sized(n, r) by { SubmitRings(n, s, t); }
    forall k | 0 <= k < |r.h.sub| && Live(r, k) ensures LiveAt(r, k) {
      if k < |s.h.sub| {
        assert Live(s, k) && LiveAt(s, k);
      }
    }
    forall u | u in r.calls ensures CallAt(n, r, u) {
      if u == t {
        OwnLinked(n, s, t);
      } else if s.calls[u].submitted {
        assert CallAt(n, s, u);
        OthersLinked(n, s, t, u);
      }
    }
  }

  lemma {:induction false} SubmitQueue(n: nat, s: State, t: nat)
    requires Ready(n, s, t)
    ensures QInv(n, Submit(s, t))
  {
    hide Owned, Rings, Stages, Waits, QueueSize, Written;
    SubmitRings(n, s, t);
    SubmitStages(n, s, t);
    SubmitWaits(n, s, t);
  }

  // ---- the device fetches a chain ----------------------------------------------------------------------------

  ghost predicate CanFetch(n: nat, s: State) {
    QueueSize(n) && Owned(n, s) && QInv(n, s) && FetchEnabled(s)
  }

  /** The device finds the oldest chain that it has not fetched. */
  lemma {:induction false} FetchSpec(n: nat, s: State)
    requires CanFetch(n, s)
    ensures var k := s.h.fetched;
            && k < |s.h.sub| && s.h.stage[k] == Queued && Live(s, k)
            && s.q.avail[s.dev.lastAvail % n] == s.h.sub[k].head
            && DoFetch(s).dev == Device((k + 1) % U16, s.dev.inside[s.h.sub[k].head := k])
  {
    hide Owned, Stages, Waits, QueueSize;
    var k := s.h.fetched;
    AvailBound(n, s);
    assert n <= 0x8000 by { assert QueueSize(n); SizeBound(n); }
    WrappedEqual(k, |s.h.sub|);
    WrappedSlot(n, k);
    WrappedNext(k);
    QueuedLive(s, k);
    assert AvailAt(n, s, k);
  }

  lemma {:induction false} SizeBound(n: nat)
    requires QueueSize(n)
    ensures 3 <= n <= 0x8000
  {
  }

  lemma {:induction false} FetchStages(n: nat, s: State)
    requires CanFetch(n, s)
    ensures Indexes(DoFetch(s)) && Stages(DoFetch(s))
  {
    FetchSpec(n, s);
    hide Owned, Rings, Waits, QueueSize, FetchEnabled;
    var k, r := s.h.fetched, DoFetch(s);
    assert Indexes(r);
    forall l | 0 <= l < |r.h.sub| ensures StageAt(r, l) {
      assert StageAt(s, l);
      if l != k && s.h.stage[l] == Inside && s.h.sub[l].head == s.h.sub[k].head {
        SameHead(n, s, k, l);
      }
    }
    forall head | head in r.dev.inside ensures InsideAt(r, head) {
      assert head != s.h.sub[k].head ==> InsideAt(s, head);
    }
    forall j | 0 <= j < |r.h.completed| ensures DoneAt(r, j) {
      assert DoneAt(s, j);
    }
  }

  lemma {:induction false} FetchQueue(n: nat, s: State)
    requires CanFetch(n, s)
    ensures QInv(n, DoFetch(s))
  {
    FetchSpec(n, s);
    FetchStages(n, s);
    hide Owned, Stages, Linked, QueueSize, FetchEnabled;
    var r := DoFetch(s);
    forall k | r.h.fetched <= k < |r.h.sub| ensures AvailAt(n, r, k) {
      assert AvailAt(n, s, k);
    }
    forall j | r.h.handled <= j < |r.h.completed| ensures UsedAt(n, r, j) {
      assert UsedAt(n, s, j);
    }
    forall k | 0 <= k < |r.h.sub| && Live(r, k) ensures LiveAt(r, k) {
      assert Live(s, k) && LiveAt(s, k);
    }
    forall t | t in r.calls ensures CallAt(n, r, t) {
      assert CallAt(n, s, t);
    }
  }

  // ---- the device completes a chain --------------------------------------------------------------------------

  ghost predicate CanComplete(n: nat, s: State, head: nat) {
    QueueSize(n) && Owned(n, s) && QInv(n, s) && head in s.dev.inside
  }

  /** The device carries out what the caller asked for. */
  lemma {:induction false} CompleteSpec(n: nat, s: State, head: nat)
    requires CanComplete(n, s, head)
    ensures var k := s.dev.inside[head];
            && k < |s.h.sub| && s.h.sub[k].head == head && s.h.stage[k] == Inside && Live(s, k) && k < s.h.fetched
            && Decode(s.q, head) == Some(s.h.sub[k].command)
  {
    hide Owned, Rings, QueueSize, Linked, Decode;
    assert InsideAt(s, head);
    var k := s.dev.inside[head];
    assert StageAt(s, k);
    assert LiveAt(s, k);
    var t := s.h.sub[k].caller;
    assert CallAt(n, s, t);
    LinkedDecodes(s.q, s.calls[t]);
  }

  lemma {:induction false} CompleteStages(n: nat, s: State, head: nat)
    requires CanComplete(n, s, head)
    ensures Indexes(DoComplete(s, head)) && Stages(DoComplete(s, head))
  {
    CompleteSpec(n, s, head);
    WrappedNext(|s.h.completed|);
    hide Owned, Rings, Waits, QueueSize, Decode;
    var k, r := s.dev.inside[head], DoComplete(s, head);
    assert Indexes(r);
    forall l | 0 <= l < |r.h.sub| ensures StageAt(r, l) {
      assert StageAt(s, l);
    }
    forall h | h in r.dev.inside ensures InsideAt(r, h) {
      assert InsideAt(s, h);
    }
    forall j | 0 <= j < |r.h.completed| ensures DoneAt(r, j) {
      if j < |s.h.completed| {
        assert DoneAt(s, j);
      }
    }
  }

  lemma {:induction false} CompleteRings(n: nat, s: State, head: nat)
    requires CanComplete(n, s, head)
    ensures var r := DoComplete(s, head); Sized(n, r) && Indexes(r) && Rings(n, r)
  {
    CompleteSpec(n, s, head);
    CompleteStages(n, s, head);
    UsedRoom(n, s, head);
    hide Owned, Stages, Waits, QueueSize, Decode;
    var r := DoComplete(s, head);
    var m := |s.h.completed|;
    WrappedSlot(n, m);
    forall k | r.h.fetched <= k < |r.h.sub| ensures AvailAt(n, r, k) {
      assert AvailAt(n, s, k);
    }
    forall j | r.h.handled <= j < |r.h.completed| ensures UsedAt(n, r, j) {
      if j < m {
        assert UsedAt(n, s, j);
        SlotsApart(n, j, m);
      }
    }
  }

  lemma {:induction false} CompleteQueue(n: nat, s: State, head: nat)
    requires CanComplete(n, s, head)
    ensures QInv(n, DoComplete(s, head))
  {
    CompleteSpec(n, s, head);
    CompleteStages(n, s, head);
    CompleteRings(n, s, head);
    hide Owned, Stages, Rings, Linked, QueueSize, Decode;
    var r := DoComplete(s, head);
    forall k | 0 <= k < |r.h.sub| && Live(r, k) ensures LiveAt(r, k) {
      assert Live(s, k) && LiveAt(s, k);
    }
    forall t | t in r.calls ensures CallAt(n, r, t) {
      assert CallAt(n, s, t);
      if s.calls[t].submitted {
        SameChain(n, s.q, r.q, s.calls[t]);
      }
    }
  }

  lemma {:induction false} SameChain(n: nat, q: Queue, q': Queue, c: Call)
    requires q'.desc == q.desc && q'.ops == q.ops && |q.desc| == |q.ops| == |q.info| == |q'.info| == n
    requires forall i :: 0 <= i < n ==> q'.info[i].addr == q.info[i].addr
    requires |c.held| == 3 && InRange(n, c.held)
    ensures Linked(q, c) ==> Linked(q', c)
  {
  }

  // ---- the interrupt handler ---------------------------------------------------------------------------------

  ghost predicate CanHandle(n: nat, s: State) {
    QueueSize(n) && Owned(n, s) && QInv(n, s) && HandleEnabled(s)
  }

  /** The handler finds the oldest completion that it has not seen, and its caller still waits for it. */
  lemma {:induction false} HandleSpec(n: nat, s: State) returns (k: nat, t: nat)
    requires CanHandle(n, s)
    ensures && s.h.handled < |s.h.completed| && k == s.h.completed[s.h.handled] < |s.h.sub|
            && s.h.stage[k] == Done(s.h.handled) && Live(s, k)
            && t == s.h.sub[k].caller && LiveAt(s, k) && CallAt(n, s, t)
            && s.q.used[s.q.seen % n] == s.calls[t].held[0] < n
  {
    hide Owned, Linked, QueueSize;
    var m := s.h.handled;
    UsedBound(n, s);
    SizeBound(n);
    WrappedEqual(m, |s.h.completed|);
    WrappedSlot(n, m);
    DoneLive(s, m);
    k := s.h.completed[m];
    assert LiveAt(s, k);
    t := s.h.sub[k].caller;
    assert CallAt(n, s, t);
    assert UsedAt(n, s, m);
  }

  lemma {:induction false} HandleRings(n: nat, s: State)
    requires CanHandle(n, s)
    ensures var r := DoHandle(s); Sized(n, r) && Indexes(r) && Rings(n, r) && Stages(r)
  {
    var k, t := HandleSpec(n, s);
    WrappedNext(s.h.handled);
    hide Owned, Waits, QueueSize, HandleEnabled, CallAt;
    var r := DoHandle(s);
    forall l | r.h.fetched <= l < |r.h.sub| ensures AvailAt(n, r, l) {
      assert AvailAt(n, s, l);
    }
    forall j | r.h.handled <= j < |r.h.completed| ensures UsedAt(n, r, j) {
      assert UsedAt(n, s, j);
    }
    forall l | 0 <= l < |r.h.sub| ensures StageAt(r, l) {
      assert StageAt(s, l);
    }
    forall head | head in r.dev.inside ensures InsideAt(r, head) {
      assert InsideAt(s, head);
    }
    forall j | 0 <= j < |r.h.completed| ensures DoneAt(r, j) {
      assert DoneAt(s, j);
    }
  }

  /** Exactly the one submission stops being live. */
  lemma {:induction false} HandleLive(n: nat, s: State, l: nat)
    requires CanHandle(n, s) && l < |s.h.sub| && Indexes(DoHandle(s))
    ensures s.h.handled < |s.h.completed|
    ensures Live(DoHandle(s), l) <==> Live(s, l) && l != s.h.completed[s.h.handled]
  {
    var k, t := HandleSpec(n, s);
    hide Owned, Waits, Rings, QueueSize, HandleEnabled, CallAt;
    assert StageAt(s, l);
  }

  lemma {:induction false} HandleQueue(n: nat, s: State)
    requires CanHandle(n, s)
    ensures QInv(n, DoHandle(s))
  {
    var k, t := HandleSpec(n, s);
    HandleRings(n, s);
    hide Owned, Rings, Stages, Linked, QueueSize, HandleEnabled;
    var r := DoHandle(s);
    forall l | 0 <= l < |r.h.sub| && Live(r, l) ensures LiveAt(r, l) {
      HandleLive(n, s, l);
      assert LiveAt(s, l);
    }
    forall u | u in r.calls ensures CallAt(n, r, u) {
      assert CallAt(n, s, u);
      var c := s.calls[u];
      if c.submitted {
        HandleLive(n, s, c.serial);
        SameChain(n, s.q, r.q, c);
        SameLinked(r.q, c, r.calls[u]);
        if u != t && c.held[0] == s.calls[t].held[0] {
          Disjoint(n, s, t, u, 0, 0);
        }
      }
    }
  }

  // ---- runs --------------------------------------------------------------------------------------------------

  /** When a step can be taken.  `Rouse` is any wakeup from outside the driver, as by `kill`. */
  ghost predicate Enabled(s: State, step: Step) {
    match step
    case Enter(t, args) => t !in s.calls
    case Run(t) => t in s.calls && !s.calls[t].asleep
    case Rouse(t) => t in s.calls
    case Fetch => FetchEnabled(s)
    case Complete(head) => head in s.dev.inside
    case Handle => HandleEnabled(s)
  }

  /** One critical section of a caller that still allocates. */
  ghost function Allocate(n: nat, s: State, t: nat): State
    requires Inv(n, s) && t in s.calls
  {
    GrabSpec(n, s, t);
    var g := Grab(s, t);
    HeldFacts(n, g, t);
    if |g.calls[t].held| == 3 then Submit(g, t) else Asleep(g, t)
  }

  /** One critical section of a caller that waits for its operation. */
  ghost function Await(n: nat, s: State, t: nat): State
    requires Inv(n, s) && t in s.calls && s.calls[t].submitted
  {
    assert CallAt(n, s, t);
    if s.q.info[s.calls[t].held[0]].inUse then Asleep(s, t) else Return(s, t)
  }

  ghost function Next(n: nat, s: State, step: Step): State
    requires Inv(n, s) && Enabled(s, step)
  {
    match step
    case Enter(t, args) => Entered(s, t, args)
    case Run(t) => if s.calls[t].submitted then Await(n, s, t) else Allocate(n, s, t)
    case Rouse(t) => s.(calls := s.calls[t := s.calls[t].(asleep := false)])
    case Fetch => DoFetch(s)
    case Complete(head) => DoComplete(s, head)
    case Handle => DoHandle(s)
  }

  /** The state after `Disk::init`: nothing is taken, nothing is in flight, all indices are zero. */
  ghost predicate Initial(n: nat, s: State) {
    && QueueSize(n) && Sized(n, s) && (forall i :: 0 <= i < n ==> !s.taken[i])
    && s.owner == map[] && s.calls == map[] && s.dev == Device(0, map[])
    && s.q.availIdx == 0 && s.q.usedIdx == 0 && s.q.seen == 0 && s.h == History([], [], 0, [], [], 0)
  }

  lemma {:induction false} InitialInv(n: nat, s: State)
    requires Initial(n, s)
    ensures Inv(n, s)
  {
    AllFree(s.taken);
    assert forall t :: !Partial(s, t);
  }

  lemma {:induction false} EnterInv(n: nat, s: State, t: nat, args: Args)
    requires Inv(n, s) && t !in s.calls
    ensures Inv(n, Next(n, s, Enter(t, args)))
  {
    hide Owned, Counted, QInv;
    var r := Next(n, s, Enter(t, args));
    EnterPool(n, s, t, args);
    IsSized(n, s);
    QFrame(n, s, r);
    forall u | u in r.calls ensures SleepAt(r, u) {
      assert u != t ==> SleepAt(s, u);
    }
  }

  /** Waking a caller or putting it to sleep changes nothing else. */
  lemma {:induction false} TurnInv(n: nat, s: State, t: nat, asleep: bool)
    requires Owned(n, s) && Counted(n, s) && QInv(n, s) && t in s.calls
    ensures var r := s.(calls := s.calls[t := s.calls[t].(asleep := asleep)]);
            Owned(n, r) && Counted(n, r) && QInv(n, r)
  {
    hide Owned, Counted, QInv;
    var r := s.(calls := s.calls[t := s.calls[t].(asleep := asleep)]);
    assert Sized(n, s) by { IsSized(n, s); }
    PoolFrame(n, s, r);
    QFrame(n, s, r);
  }

  lemma {:induction false} IsSized(n: nat, s: State)
    requires Owned(n, s)
    ensures Sized(n, s)
  {
  }

  lemma {:induction false} RouseInv(n: nat, s: State, t: nat)
    requires Inv(n, s) && t in s.calls
    ensures Inv(n, Next(n, s, Rouse(t)))
  {
    hide Owned, Counted, QInv;
    TurnInv(n, s, t, false);
    var r := Next(n, s, Rouse(t));
    forall u | u in r.calls ensures SleepAt(r, u) {
      assert SleepAt(s, u);
    }
  }

  lemma {:induction false} AllocateInv(n: nat, s: State, t: nat)
    requires QueueSize(n) && Inv(n, s) && t in s.calls && !s.calls[t].submitted
    ensures Inv(n, Allocate(n, s, t))
  {
    hide QueueSize, Owned, Counted, QInv, Grab, FreeCount, AllTaken, Written;
    var g := Grab(s, t);
    GrabSpec(n, s, t);
    GrabCounted(n, s, t);
    HeldFacts(n, g, t);
    FreeCountZero(s.taken);
    FreeCountZero(g.taken);
    IsSized(n, s);
    IsSized(n, g);
    QFrame(n, s, g);
    if |g.calls[t].held| == 3 {
      SubmitQueue(n, g, t);
      var r := Submit(g, t);
      assert Sized(n, r) by { SubmitSized(n, g, t); }
      PoolFrame(n, g, r);
      SubmitSleepers(n, s, g, t);
    } else {
      TurnInv(n, g, t, true);
      var r := Asleep(g, t);
      forall u | u in r.calls ensures SleepAt(r, u) {
        assert SleepAt(s, u);
      }
    }
  }

  lemma {:induction false} SubmitSized(n: nat, s: State, t: nat)
    requires Sized(n, s) && t in s.calls && |s.calls[t].held| == 3 && InRange(n, s.calls[t].held)
    ensures Sized(n, Submit(s, t))
  {
  }

  lemma {:induction false} SubmitSleepers(n: nat, s: State, g: State, t: nat)
    requires Sleepers(s) && t in s.calls && Ready(n, g, t) && Formed(s)
    requires g.calls == s.calls[t := s.calls[t].(held := g.calls[t].held)] && g.q == s.q
    requires AllTaken(s.taken) ==> AllTaken(g.taken)
    ensures Sleepers(Submit(g, t)) && Formed(Submit(g, t))
  {
    hide QueueSize, Owned, Rings, Stages;
    var r := Submit(g, t);
    assert Sized(n, r) by { SubmitSized(n, g, t); }
    OwnLinked(n, g, t);
    forall u | u in r.calls ensures SleepAt(r, u) {
      if u != t {
        assert SleepAt(s, u);
        if s.calls[u].submitted {
          assert CallAt(n, g, u);
          OthersLinked(n, g, t, u);
        }
      }
    }
  }

  lemma {:induction false} AwaitInv(n: nat, s: State, t: nat)
    requires Inv(n, s) && t in s.calls && s.calls[t].submitted
    ensures Inv(n, Await(n, s, t))
  {
    hide Owned, Counted, Rings, Stages, Linked, Release;
    assert CallAt(n, s, t);
    var r := Await(n, s, t);
    if s.q.info[s.calls[t].held[0]].inUse {
      TurnInv(n, s, t, true);
    } else {
      ReturnOwned(n, s, t);
      ReturnCounted(n, s, t);
      ReturnQueue(n, s, t);
    }
    forall u | u in r.calls ensures SleepAt(r, u) {
      assert SleepAt(s, u);
    }
  }

  lemma {:induction false} FetchInv(n: nat, s: State)
    requires QueueSize(n) && Inv(n, s) && FetchEnabled(s)
    ensures Inv(n, DoFetch(s))
  {
    hide QueueSize, Owned, Counted, Rings, Stages, Waits;
    FetchQueue(n, s);
    var r := DoFetch(s);
    PoolFrame(n, s, r);
    forall u | u in r.calls ensures SleepAt(r, u) {
      assert SleepAt(s, u);
    }
  }

  lemma {:induction false} CompleteInv(n: nat, s: State, head: nat)
    requires QueueSize(n) && Inv(n, s) && head in s.dev.inside
    ensures Inv(n, DoComplete(s, head))
  {
    hide QueueSize, Owned, Counted, Rings, Stages, Waits, Decode;
    CompleteQueue(n, s, head);
    var r := DoComplete(s, head);
    PoolFrame(n, s, r);
    forall u | u in r.calls ensures SleepAt(r, u) {
      assert SleepAt(s, u);
    }
  }

  lemma {:induction false} HandleInv(n: nat, s: State)
    requires QueueSize(n) && Inv(n, s) && HandleEnabled(s)
    ensures Inv(n, DoHandle(s))
  {
    hide QueueSize, Owned, Counted, Rings, Stages, Waits, Linked;
    HandleQueue(n, s);
    var k, t := HandleSpec(n, s);
    var r := DoHandle(s);
    PoolFrame(n, s, r);
    forall u | u in r.calls ensures SleepAt(r, u) {
      assert SleepAt(s, u);
      if s.calls[u].submitted && s.calls[u].asleep && s.calls[u].held[0] == s.calls[t].held[0] {
        Disjoint(n, s, t, u, 0, 0);
        assert Linked(s.q, s.calls[t]);
        LinkedAddr(s.q, s.calls[t]);
      }
    }
  }

  lemma {:induction false} LinkedAddr(q: Queue, c: Call)
    requires |c.held| == 3 && InRange(|q.desc|, c.held) && |q.desc| == |q.ops| == |q.info| && Linked(q, c)
    ensures q.info[c.held[0]].addr == c.args.addr
  {
  }

  /** Every step of every caller, of the device and of the handler keeps the invariant. */
  lemma {:induction false} StepInv(n: nat, s: State, step: Step)
    requires QueueSize(n) && Inv(n, s) && Enabled(s, step)
    ensures Inv(n, Next(n, s, step))
  {
    hide QueueSize, Inv;
    match step
    case Enter(t, args) => EnterInv(n, s, t, args);
    case Run(t) =>
      if s.calls[t].submitted {
        AwaitInv(n, s, t);
      } else {
        AllocateInv(n, s, t);
      }
    case Rouse(t) => RouseInv(n, s, t);
    case Fetch => FetchInv(n, s);
    case Complete(head) => CompleteInv(n, s, head);
    case Handle => HandleInv(n, s);
  }
}
