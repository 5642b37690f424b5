/** The virtio block driver and its device as one transition system.  Each critical section of the disk lock is one
    step; the device moves on its own.  A step may be taken by any caller in any order, and `process::sleep` gives up
    the lock and falls asleep at once. */
module Virtio {
  import opened Options

  const U16: nat := 0x1_0000
  const F_NEXT: nat := 1
  const F_WRITE: nat := 2

  /** Queue sizes of section 2.6 of VIRTIO 1.1, a power of two up to 32768; a chain needs three descriptors. */
  predicate QueueSize(n: nat) {
    3 <= n <= 0x8000 && U16 % n == 0
  }

  /** The arguments of `rw`. */
  datatype Args = Args(addr: nat, block: nat, size: nat, write: bool)

  /** What the device is told to do. */
  datatype Command = Command(addr: nat, len: nat, sector: nat, write: bool)

  function Asked(a: Args): Command {
    Command(a.addr, a.size, a.block * (a.size / 512), a.write)
  }

  datatype Pointer = ToOps(index: nat) | ToData(addr: nat) | ToStatus(index: nat)
  datatype Descriptor = Descriptor(addr: Pointer, len: nat, flags: nat, next: nat)
  datatype BlockRequest = BlockRequest(sector: nat, write: bool)
  datatype Info = Info(addr: nat, inUse: bool)

  /** A caller inside `rw`.  `serial` is the number of its submission; the code does not keep it. */
  datatype Call = Call(args: Args, held: seq<nat>, submitted: bool, serial: nat, asleep: bool)

  /** The memory that driver and device share, and the driver's notes in it. */
  datatype Queue = Queue(desc: seq<Descriptor>, ops: seq<BlockRequest>, info: seq<Info>,
                         avail: seq<nat>, availIdx: nat, used: seq<nat>, usedIdx: nat, seen: nat)

  /** The device's position in the available ring and the chains it works on, each with its serial number. */
  datatype Device = Device(lastAvail: nat, inside: map<nat, nat>)

  /** How far a submission has come; `Done` says at which place of `completed` it is. */
  datatype Stage = Queued | Inside | Done(at: nat)
  datatype Submission = Submission(caller: nat, head: nat, command: Command)

  /** What has happened so far.  No step looks at it. */
  datatype History = History(sub: seq<Submission>, stage: seq<Stage>, fetched: nat,
                             completed: seq<nat>, performed: seq<Option<Command>>, handled: nat)

  /** The caller that holds a descriptor, and as which of its three. */
  datatype Place = Place(caller: nat, index: nat)

  datatype State = State(taken: seq<bool>, owner: map<nat, Place>, calls: map<nat, Call>, q: Queue, dev: Device,
      h: History)

  datatype Step =
    | Enter(caller: nat, args: Args)
    | Run(caller: nat)
    | Rouse(caller: nat)
    | Fetch
    | Complete(head: nat)
    | Handle

  // ---- descriptors -------------------------------------------------------------------------------------------

  /** The lowest clear bit at or above `from`; the length of the map if there is none. */
  function LowestFree(taken: seq<bool>, from: nat): (i: nat)
    requires from <= |taken|
    ensures from <= i <= |taken| && (i < |taken| ==> !taken[i])
    ensures forall j :: from <= j < i ==> taken[j]
    decreases |taken| - from
  {
    if from == |taken| || !taken[from] then from else LowestFree(taken, from + 1)
  }

  predicate AllTaken(taken: seq<bool>) {
    forall i :: 0 <= i < |taken| ==> taken[i]
  }

  /** `allocate_descriptor` for a caller that holds fewer than three. */
  function GrabOne(s: State, t: nat): State
    requires t in s.calls && !AllTaken(s.taken)
  {
    var c := s.calls[t];
    var i := LowestFree(s.taken, 0);
    s.(taken := s.taken[i := true], owner := s.owner[i := Place(t, |c.held|)],
        calls := s.calls[t := c.(held := c.held + [i])])
  }

  /** The allocation loop: it runs until the chain is complete or no descriptor is left. */
  function Grab(s: State, t: nat): (r: State)
    requires t in s.calls
    ensures t in r.calls
    decreases 3 - |s.calls[t].held|
  {
    if |s.calls[t].held| >= 3 || AllTaken(s.taken) then s else Grab(GrabOne(s, t), t)
  }

  function Release(taken: seq<bool>, held: seq<nat>): (r: seq<bool>)
    ensures |r| == |taken|
  {
    if held == [] then taken
    else
      var rest := Release(taken, held[..|held| - 1]);
      var i := held[|held| - 1];
      if i < |rest| then rest[i := false] else rest
  }

  function WakeAllocators(calls: map<nat, Call>): map<nat, Call> {
    map t | t in calls :: if calls[t].submitted then calls[t] else calls[t].(asleep := false)
  }

  function WakeWaiters(calls: map<nat, Call>, addr: nat): map<nat, Call> {
    map t | t in calls ::
      if calls[t].submitted && calls[t].args.addr == addr then calls[t].(asleep := false) else calls[t]
  }

  function Asleep(s: State, t: nat): State
    requires t in s.calls
  {
    s.(calls := s.calls[t := s.calls[t].(asleep := true)])
  }

  // ---- the driver's side of the queue ------------------------------------------------------------------------

  predicate InRange(n: nat, held: seq<nat>) {
    forall k :: 0 <= k < |held| ==> held[k] < n
  }

  /** The descriptor chain, the operation, the info slot and the ring entry that `rw` writes. */
  function Written(q: Queue, c: Call): Queue
    requires |c.held| == 3 && InRange(|q.desc|, c.held) && |q.desc| == |q.ops| == |q.info| == |q.avail|
  {
    var a, h := c.args, c.held;
    q.(ops := q.ops[h[0] := BlockRequest(a.block * (a.size / 512), a.write)],
       desc := q.desc[h[0] := Descriptor(ToOps(h[0]), 16, F_NEXT, h[1])]
                     [h[1] := Descriptor(ToData(a.addr), a.size, if a.write then F_NEXT else F_NEXT + F_WRITE, h[2])]
                     [h[2] := Descriptor(ToStatus(h[0]), 1, F_WRITE, 0)],
       info := q.info[h[0] := Info(a.addr, true)],
       avail := q.avail[q.availIdx % |q.avail| := h[0]],
       availIdx := (q.availIdx + 1) % U16)
  }

  /** The rest of the critical section once the chain is complete.  The operation is in use from here on, so that the
      caller goes to sleep. */
  function Submit(s: State, t: nat): State
    requires t in s.calls && |s.calls[t].held| == 3 && Sized(|s.taken|, s) && InRange(|s.taken|, s.calls[t].held)
  {
    var c := s.calls[t];
    s.(q := Written(s.q, c),
       calls := s.calls[t := Call(c.args, c.held, true, |s.h.sub|, true)],
       h := s.h.(sub := s.h.sub + [Submission(t, c.held[0], Asked(c.args))], stage := s.h.stage + [Queued]))
  }

  /** The end of `rw`: all three descriptors go back, and everybody who waits for one is woken. */
  function Return(s: State, t: nat): State
    requires t in s.calls
  {
    var held := s.calls[t].held;
    s.(taken := Release(s.taken, held), owner := map i | i in s.owner && s.owner[i].caller != t :: s.owner[i],
       calls := WakeAllocators(s.calls - {t}))
  }

  predicate Sized(n: nat, s: State) {
    && |s.taken| == n && |s.q.desc| == n && |s.q.ops| == n && |s.q.info| == n && |s.q.avail| == n && |s.q.used| == n
  }

  // ---- the device --------------------------------------------------------------------------------------------

  /** The command that a chain stands for, read through the descriptor table from its head. */
  function Decode(q: Queue, head: nat): Option<Command> {
    if head >= |q.desc| then None else
      var d := q.desc[head];
      if d.flags != F_NEXT || !d.addr.ToOps? || d.addr.index >= |q.ops| || d.next >= |q.desc| then None else
        var op := q.ops[d.addr.index];
        var e := q.desc[d.next];
        if e.flags != (if op.write then F_NEXT else F_NEXT + F_WRITE) || !e.addr.ToData?
          || e.next >= |q.desc| then None else
          var f := q.desc[e.next];
          if f != Descriptor(ToStatus(head), 1, F_WRITE, 0) then None
          else Some(Command(e.addr.addr, e.len, op.sector, op.write))
  }

  predicate FetchEnabled(s: State) {
    s.dev.lastAvail != s.q.availIdx
  }

  function DoFetch(s: State): State
    requires |s.q.avail| > 0
  {
    var head := s.q.avail[s.dev.lastAvail % |s.q.avail|];
    var k := s.h.fetched;
    s.(dev := Device((s.dev.lastAvail + 1) % U16, s.dev.inside[head := k]),
       h := s.h.(fetched := k + 1, stage := if k < |s.h.stage| then s.h.stage[k := Inside] else s.h.stage))
  }

  /** The device has carried out the command of a chain; chains may be finished in any order. */
  function DoComplete(s: State, head: nat): State
    requires head in s.dev.inside && |s.q.used| > 0
  {
    var k := s.dev.inside[head];
    s.(dev := s.dev.(inside := s.dev.inside - {head}),
       q := s.q.(used := s.q.used[s.q.usedIdx % |s.q.used| := head], usedIdx := (s.q.usedIdx + 1) % U16),
       h := s.h.(completed := s.h.completed + [k], performed := s.h.performed + [Decode(s.q, head)],
                 stage := if k < |s.h.stage| then s.h.stage[k := Done(|s.h.completed|)] else s.h.stage))
  }

  predicate HandleEnabled(s: State) {
    s.q.seen != s.q.usedIdx
  }

  /** The entry of the used ring that the handler looks at next, and what it does to it. */
  function NextUsed(q: Queue): nat
    requires |q.used| > 0
  {
    q.used[q.seen % |q.used|]
  }

  function HandleOne(q: Queue): Queue
    requires |q.used| > 0 && NextUsed(q) < |q.info|
  {
    var id := NextUsed(q);
    q.(info := q.info[id := Info(q.info[id].addr, false)], seen := (q.seen + 1) % U16)
  }

  /** One turn of the loop of `interrupt_handler`. */
  function DoHandle(s: State): State
    requires |s.q.used| > 0
  {
    if NextUsed(s.q) >= |s.q.info| then s else
      s.(q := HandleOne(s.q), calls := WakeWaiters(s.calls, s.q.info[NextUsed(s.q)].addr),
         h := s.h.(handled := s.h.handled + 1))
  }

  // ---- invariants --------------------------------------------------------------------------------------------

  /** Descriptor `i` is the one its owner has noted. */
  ghost predicate OwnedAt(s: State, i: nat)
    requires i in s.owner
  {
    var p := s.owner[i];
    p.caller in s.calls && p.index < |s.calls[p.caller].held| && s.calls[p.caller].held[p.index] == i
  }

  ghost predicate HeldAt(s: State, t: nat, k: nat)
    requires t in s.calls && k < |s.calls[t].held|
  {
    s.calls[t].held[k] in s.owner && s.owner[s.calls[t].held[k]] == Place(t, k)
  }

  /** Every taken descriptor is held by exactly one caller, once. */
  ghost predicate Owned(n: nat, s: State) {
    && Sized(n, s)
    && (forall i :: 0 <= i < n ==> (s.taken[i] <==> i in s.owner))
    && (forall i :: i in s.owner ==> i < n && OwnedAt(s, i))
    && (forall t :: t in s.calls ==> |s.calls[t].held| <= 3)
    && (forall t, k :: t in s.calls && 0 <= k < |s.calls[t].held| ==> HeldAt(s, t, k))
  }

  /** A caller has published its chain exactly when it is complete. */
  ghost predicate Formed(s: State) {
    forall t :: t in s.calls ==> (s.calls[t].submitted <==> |s.calls[t].held| == 3)
  }

  function FreeCount(taken: seq<bool>): nat {
    if taken == [] then 0 else FreeCount(taken[..|taken| - 1]) + if taken[|taken| - 1] then 0 else 1
  }

  ghost predicate Partial(s: State, t: nat) {
    t in s.calls && 0 < |s.calls[t].held| < 3
  }

  /** At most one caller holds a partial chain, and it holds what the chains leave over. */
  ghost predicate Counted(n: nat, s: State) {
    && (forall t, u :: Partial(s, t) && Partial(s, u) ==> t == u)
    && (forall t :: Partial(s, t) ==> |s.calls[t].held| == n % 3 && FreeCount(s.taken) % 3 == 0)
    && ((forall t :: !Partial(s, t)) ==> FreeCount(s.taken) % 3 == n % 3)
  }

  // ---- allocation --------------------------------------------------------------------------------------------

  lemma {:induction false} FreeCountUpdate(taken: seq<bool>, i: nat, b: bool)
    requires i < |taken|
    ensures FreeCount(taken[i := b]) == FreeCount(taken) + (if taken[i] then 1 else 0) - (if b then 1 else 0)
  {
    var m := |taken| - 1;
    if i == m {
      assert taken[i := b][..m] == taken[..m];
    } else {
      assert taken[i := b][..m] == taken[..m][i := b];
      FreeCountUpdate(taken[..m], i, b);
    }
  }

  lemma {:induction false} FreeCountZero(taken: seq<bool>)
    ensures FreeCount(taken) == 0 <==> AllTaken(taken)
  {
    if taken != [] {
      FreeCountZero(taken[..|taken| - 1]);
    }
  }

  lemma {:induction false} HeldFacts(n: nat, s: State, t: nat)
    requires Owned(n, s) && t in s.calls
    ensures InRange(n, s.calls[t].held) && |s.calls[t].held| <= 3
    ensures forall k :: 0 <= k < |s.calls[t].held| ==> s.taken[s.calls[t].held[k]]
    ensures forall k, l :: 0 <= k < l < |s.calls[t].held| ==> s.calls[t].held[k] != s.calls[t].held[l]
  {
    var held := s.calls[t].held;
    forall k | 0 <= k < |held| ensures held[k] in s.owner && s.owner[held[k]] == Place(t, k) {
      assert HeldAt(s, t, k);
    }
  }

  /** No two callers share a descriptor. */
  lemma {:induction false} Disjoint(n: nat, s: State, t: nat, u: nat, k: nat, l: nat)
    requires Owned(n, s) && t in s.calls && u in s.calls && k < |s.calls[t].held| && l < |s.calls[u].held|
    requires s.calls[t].held[k] == s.calls[u].held[l]
    ensures t == u && k == l
  {
    assert HeldAt(s, t, k) && HeldAt(s, u, l);
  }

  lemma {:induction false} GrabOneOwned(n: nat, s: State, t: nat)
    requires Owned(n, s) && t in s.calls && |s.calls[t].held| < 3 && !AllTaken(s.taken)
    ensures Owned(n, GrabOne(s, t))
  {
    var i := LowestFree(s.taken, 0);
    var r := GrabOne(s, t);
    assert i < n && i !in s.owner;
    forall j | j in r.owner ensures j < n && OwnedAt(r, j) {
      assert j != i ==> OwnedAt(s, j);
    }
    forall u, k | u in r.calls && 0 <= k < |r.calls[u].held| ensures HeldAt(r, u, k) {
      if u != t || k < |s.calls[t].held| {
        assert HeldAt(s, u, k);
      }
    }
  }

  /** What a run of the allocation loop does: it takes as many descriptors as are missing and left. */
  lemma {:induction false} GrabSpec(n: nat, s: State, t: nat)
    requires Owned(n, s) && t in s.calls
    ensures var r := Grab(s, t);
            && Owned(n, r)
            && r.calls == s.calls[t := s.calls[t].(held := r.calls[t].held)] && r.q == s.q && r.dev == s.dev
              && r.h == s.h
            && |s.calls[t].held| <= |r.calls[t].held|
            && |r.calls[t].held| + FreeCount(r.taken) == |s.calls[t].held| + FreeCount(s.taken)
            && (|r.calls[t].held| == 3 || FreeCount(r.taken) == 0)
    decreases 3 - |s.calls[t].held|
  {
    hide Owned, LowestFree, FreeCount;
    FreeCountZero(s.taken);
    HeldFacts(n, s, t);
    if |s.calls[t].held| < 3 && !AllTaken(s.taken) {
      GrabOneOwned(n, s, t);
      FreeCountUpdate(s.taken, LowestFree(s.taken, 0), true);
      GrabSpec(n, GrabOne(s, t), t);
    }
  }

  lemma {:induction false} ReleaseSpec(taken: seq<bool>, held: seq<nat>, i: nat)
    requires i < |taken| && InRange(|taken|, held)
    ensures Release(taken, held)[i] <==> taken[i] && i !in held
  {
    if held != [] {
      var m := |held| - 1;
      ReleaseSpec(taken, held[..m], i);
      assert held == held[..m] + [held[m]];
    }
  }

  lemma {:induction false} ReleaseCount(taken: seq<bool>, held: seq<nat>)
    requires InRange(|taken|, held) && forall k :: 0 <= k < |held| ==> taken[held[k]]
    requires forall k, l :: 0 <= k < l < |held| ==> held[k] != held[l]
    ensures FreeCount(Release(taken, held)) == FreeCount(taken) + |held|
  {
    if held != [] {
      var m := |held| - 1;
      ReleaseCount(taken, held[..m]);
      ReleaseSpec(taken, held[..m], held[m]);
      FreeCountUpdate(Release(taken, held[..m]), held[m], false);
    }
  }

  lemma {:induction false} ReturnOwned(n: nat, s: State, t: nat)
    requires Owned(n, s) && t in s.calls
    ensures Owned(n, Return(s, t))
    ensures FreeCount(Return(s, t).taken) == FreeCount(s.taken) + |s.calls[t].held|
  {
    hide FreeCount, Release;
    var held := s.calls[t].held;
    var r := Return(s, t);
    HeldFacts(n, s, t);
    forall i | 0 <= i < n ensures r.taken[i] <==> i in r.owner {
      ReleaseSpec(s.taken, held, i);
      if i in s.owner {
        assert OwnedAt(s, i);
        if i in held {
          var k :| 0 <= k < |held| && held[k] == i;
          assert HeldAt(s, t, k);
        }
      }
    }
    forall i | i in r.owner ensures i < n && OwnedAt(r, i) {
      assert OwnedAt(s, i);
    }
    forall u, k | u in r.calls && 0 <= k < |r.calls[u].held| ensures HeldAt(r, u, k) {
      assert HeldAt(s, u, k);
    }
    ReleaseCount(s.taken, held);
  }

  /** The counting argument: whatever a caller finds free, one run of its allocation loop leaves at most one partial
      chain, of exactly `n % 3` descriptors. */
  lemma {:induction false} GrabCounted(n: nat, s: State, t: nat)
    requires Owned(n, s) && Counted(n, s) && t in s.calls
    ensures Counted(n, Grab(s, t))
  {
    hide Owned, FreeCount, Grab;
    GrabSpec(n, s, t);
    HeldFacts(n, s, t);
    var r := Grab(s, t);
    HeldFacts(n, r, t);
    assert forall u :: u != t ==> (Partial(r, u) <==> Partial(s, u));
    if Partial(s, t) {
      assert forall u :: Partial(s, u) ==> u == t;
      var f, h := FreeCount(s.taken), |s.calls[t].held|;
      assert f == 3 * (f / 3) && h == n % 3;
      if |r.calls[t].held| == 3 {
        assert FreeCount(r.taken) == 3 * (f / 3 - 1) + h;
        assert forall u :: !Partial(r, u);
      } else {
        assert f / 3 == 0 && Partial(r, t);
      }
    } else if u :| Partial(s, u) {
      assert u != t && |s.calls[u].held| == n % 3;
    } else {
      var f, h' := FreeCount(s.taken), |r.calls[t].held|;
      assert f == 3 * (f / 3) + n % 3;
      if |s.calls[t].held| == 0 && h' == 3 {
        assert FreeCount(r.taken) == 3 * (f / 3 - 1) + n % 3;
      } else if |s.calls[t].held| == 0 {
        assert h' == f == n % 3 && (h' > 0 ==> Partial(r, t));
      }
    }
  }

  lemma {:induction false} ReturnCounted(n: nat, s: State, t: nat)
    requires Owned(n, s) && Counted(n, s) && t in s.calls && |s.calls[t].held| == 3
    ensures Counted(n, Return(s, t))
  {
    hide Owned, FreeCount, Release;
    ReturnOwned(n, s, t);
    var r := Return(s, t);
    assert forall u :: Partial(r, u) <==> Partial(s, u);
  }

  /** Callers may have been woken, put to sleep or published, but hold what they held. */
  ghost predicate SameHeld(calls: map<nat, Call>, calls': map<nat, Call>) {
    && (forall t :: t in calls' <==> t in calls)
    && (forall t :: t in calls ==> calls'[t].held == calls[t].held)
  }

  lemma {:induction false} PoolFrame(n: nat, s: State, r: State)
    requires Owned(n, s) && Counted(n, s) && Sized(n, r)
    requires r.taken == s.taken && r.owner == s.owner && SameHeld(s.calls, r.calls)
    ensures Owned(n, r) && Counted(n, r)
  {
    hide FreeCount;
    assert forall t :: Partial(r, t) <==> Partial(s, t);
    forall i | i in r.owner ensures i < n && OwnedAt(r, i) {
      assert OwnedAt(s, i);
    }
    forall t, k | t in r.calls && 0 <= k < |r.calls[t].held| ensures HeldAt(r, t, k) {
      assert HeldAt(s, t, k);
    }
  }

  /** A caller that comes in holds nothing. */
  function Entered(s: State, t: nat, args: Args): State {
    s.(calls := s.calls[t := Call(args, [], false, 0, false)])
  }

  lemma {:induction false} EnterPool(n: nat, s: State, t: nat, args: Args)
    requires Owned(n, s) && Counted(n, s) && t !in s.calls
    ensures Owned(n, Entered(s, t, args)) && Counted(n, Entered(s, t, args))
  {
    hide FreeCount;
    var r := Entered(s, t, args);
    assert forall u :: Partial(r, u) <==> Partial(s, u);
    forall i | i in r.owner ensures i < n && OwnedAt(r, i) {
      assert OwnedAt(s, i);
    }
    forall u, k | u in r.calls && 0 <= k < |r.calls[u].held| ensures HeldAt(r, u, k) {
      assert HeldAt(s, u, k);
    }
  }

  lemma {:induction false} AllFree(taken: seq<bool>)
    requires forall i :: 0 <= i < |taken| ==> !taken[i]
    ensures FreeCount(taken) == |taken|
  {
    if taken != [] {
      AllFree(taken[..|taken| - 1]);
    }
  }

  /** With no descriptor free, some caller holds a complete chain. */
  lemma {:induction false} ChainOutstanding(n: nat, s: State) returns (t: nat)
    requires n >= 3 && Owned(n, s) && Counted(n, s) && AllTaken(s.taken)
    ensures t in s.calls && |s.calls[t].held| == 3
  {
    hide FreeCount;
    assert s.taken[0] && s.taken[1] && s.taken[2];
    assert OwnedAt(s, 0) && OwnedAt(s, 1) && OwnedAt(s, 2);
    var a, b, c := s.owner[0].caller, s.owner[1].caller, s.owner[2].caller;
    if |s.calls[a].held| == 3 {
      t := a;
    } else if |s.calls[b].held| == 3 {
      t := b;
    } else {
      t := c;
      assert Partial(s, a) && Partial(s, b) && !Partial(s, c);
    }
  }
}
