/** The two rings: every submitted chain reaches the device, is carried out and is reported exactly once. */
module VirtioQueue {
  import opened Arith
  import opened Options
  import opened Virtio

  // ---- invariants --------------------------------------------------------------------------------------------

  /** The 16-bit indices are the true counts, wrapped. */
  ghost predicate Indexes(s: State) {
    && s.h.fetched <= |s.h.sub| == |s.h.stage| && s.h.handled <= |s.h.completed| == |s.h.performed|
    && s.q.availIdx == |s.h.sub| % U16 && s.dev.lastAvail == s.h.fetched % U16
    && s.q.usedIdx == |s.h.completed| % U16 && s.q.seen == s.h.handled % U16
  }

  /** A submission whose completion the driver has not seen yet. */
  predicate Live(s: State, k: nat)
    requires k < |s.h.stage|
  {
    s.h.stage[k].Done? ==> s.h.handled <= s.h.stage[k].at
  }

  ghost predicate AvailAt(n: nat, s: State, k: nat)
    requires n > 0 && |s.q.avail| == n && k < |s.h.sub|
  {
    s.q.avail[k % n] == s.h.sub[k].head
  }

  ghost predicate UsedAt(n: nat, s: State, j: nat)
    requires n > 0 && |s.q.used| == n && j < |s.h.completed|
  {
    s.h.completed[j] < |s.h.sub| && s.q.used[j % n] == s.h.sub[s.h.completed[j]].head
  }

  /** No unconsumed entry of either ring has been overwritten. */
  ghost predicate Rings(n: nat, s: State)
    requires n > 0 && Sized(n, s) && Indexes(s)
  {
    && (forall k :: s.h.fetched <= k < |s.h.sub| ==> AvailAt(n, s, k))
    && (forall j :: s.h.handled <= j < |s.h.completed| ==> UsedAt(n, s, j))
  }

  ghost predicate StageAt(s: State, k: nat)
    requires Indexes(s) && k < |s.h.sub|
  {
    match s.h.stage[k]
    case Queued => s.h.fetched <= k
    case Inside => k < s.h.fetched && s.h.sub[k].head in s.dev.inside && s.dev.inside[s.h.sub[k].head] == k
    case Done(j) => k < s.h.fetched && j < |s.h.completed| && s.h.completed[j] == k
  }

  ghost predicate InsideAt(s: State, head: nat)
    requires Indexes(s) && head in s.dev.inside
  {
    var k := s.dev.inside[head];
    k < |s.h.sub| && s.h.sub[k].head == head && s.h.stage[k] == Inside
  }

  ghost predicate DoneAt(s: State, j: nat)
    requires Indexes(s) && j < |s.h.completed|
  {
    var k := s.h.completed[j];
    k < |s.h.sub| && s.h.stage[k] == Done(j) && s.h.performed[j] == Some(s.h.sub[k].command)
  }

  /** Each submission is in one place only: still in the ring, inside the device, or completed once. */
  ghost predicate Stages(s: State)
    requires Indexes(s)
  {
    && (forall k :: 0 <= k < |s.h.sub| ==> StageAt(s, k))
    && (forall head :: head in s.dev.inside ==> InsideAt(s, head))
    && (forall j :: 0 <= j < |s.h.completed| ==> DoneAt(s, j))
  }

  /** The caller of a live submission still waits for it. */
  ghost predicate LiveAt(s: State, k: nat)
    requires k < |s.h.sub|
  {
    var t := s.h.sub[k].caller;
    && t in s.calls && s.calls[t].submitted && s.calls[t].serial == k
    && |s.calls[t].held| == 3 && s.calls[t].held[0] == s.h.sub[k].head
  }

  /** The three descriptors of a caller are linked and describe its request. */
  ghost predicate Linked(q: Queue, c: Call)
    requires |c.held| == 3 && InRange(|q.desc|, c.held) && |q.desc| == |q.ops| == |q.info|
  {
    var a, h := c.args, c.held;
    && q.ops[h[0]] == BlockRequest(a.block * (a.size / 512), a.write)
    && q.desc[h[0]] == Descriptor(ToOps(h[0]), 16, F_NEXT, h[1])
    && q.desc[h[1]] == Descriptor(ToData(a.addr), a.size, if a.write then F_NEXT else F_NEXT + F_WRITE, h[2])
    && q.desc[h[2]] == Descriptor(ToStatus(h[0]), 1, F_WRITE, 0)
    && q.info[h[0]].addr == a.addr
  }

  ghost predicate CallAt(n: nat, s: State, t: nat)
    requires Sized(n, s) && Indexes(s) && t in s.calls
  {
    var c := s.calls[t];
    c.submitted ==>
      && |c.held| == 3 && InRange(n, c.held) && c.serial < |s.h.sub|
      && s.h.sub[c.serial] == Submission(t, c.held[0], Asked(c.args))
      && (s.q.info[c.held[0]].inUse <==> Live(s, c.serial))
      && Linked(s.q, c)
  }

  ghost predicate Waits(n: nat, s: State)
    requires Sized(n, s) && Indexes(s)
  {
    && (forall k :: 0 <= k < |s.h.sub| && Live(s, k) ==> LiveAt(s, k))
    && (forall t :: t in s.calls ==> CallAt(n, s, t))
  }

  /** Nobody sleeps for what is already there. */
  ghost predicate SleepAt(s: State, t: nat)
    requires t in s.calls
  {
    var c := s.calls[t];
    c.asleep ==> if c.submitted then |c.held| == 3 && c.held[0] < |s.q.info| && s.q.info[c.held[0]].inUse
        else AllTaken(s.taken)
  }

  ghost predicate Sleepers(s: State) {
    forall t :: t in s.calls ==> SleepAt(s, t)
  }

  ghost predicate QInv(n: nat, s: State) {
    n > 0 && Sized(n, s) && Indexes(s) && Rings(n, s) && Stages(s) && Waits(n, s)
  }

  ghost predicate Inv(n: nat, s: State) {
    && Owned(n, s) && Counted(n, s) && Formed(s) && QInv(n, s) && Sleepers(s)
  }

  lemma {:induction false} LinkedDecodes(q: Queue, c: Call)
    requires |c.held| == 3 && InRange(|q.desc|, c.held) && |q.desc| == |q.ops| == |q.info| && Linked(q, c)
    ensures Decode(q, c.held[0]) == Some(Asked(c.args))
  {
  }

  // ---- the rings have room -----------------------------------------------------------------------------------

  lemma {:induction false} SameHead(n: nat, s: State, k: nat, l: nat)
    requires Owned(n, s) && QInv(n, s) && k < |s.h.sub| && l < |s.h.sub| && Live(s, k) && Live(s, l)
    requires s.h.sub[k].head == s.h.sub[l].head
    ensures k == l
  {
    hide Owned, Linked, Rings, Stages;
    assert LiveAt(s, k) && LiveAt(s, l);
    Disjoint(n, s, s.h.sub[k].caller, s.h.sub[l].caller, 0, 0);
  }

  lemma {:induction false} Below(xs: set<nat>, n: nat)
    requires forall x :: x in xs ==> x < n
    ensures |xs| <= n
  {
    if n == 0 {
      assert xs == {};
    } else {
      Below(xs - {n - 1}, n - 1);
    }
  }

  /** The heads of the submissions from `lo` up to `hi`. */
  ghost function Heads(s: State, lo: nat, hi: nat): set<nat>
    requires lo <= hi <= |s.h.sub|
  {
    if lo == hi then {} else Heads(s, lo, hi - 1) + {s.h.sub[hi - 1].head}
  }

  lemma {:induction false} HeadsHave(s: State, lo: nat, hi: nat, x: nat)
    requires lo <= hi <= |s.h.sub|
    ensures x in Heads(s, lo, hi) <==> exists k :: lo <= k < hi && s.h.sub[k].head == x
  {
    if lo < hi {
      HeadsHave(s, lo, hi - 1, x);
      assert s.h.sub[hi - 1].head == x ==> exists k :: lo <= k < hi && s.h.sub[k].head == x;
    }
  }

  lemma {:induction false} HeadsCount(n: nat, s: State, lo: nat, hi: nat)
    requires Owned(n, s) && QInv(n, s) && lo <= hi <= |s.h.sub|
    requires forall k :: lo <= k < hi ==> Live(s, k)
    ensures |Heads(s, lo, hi)| == hi - lo
  {
    hide Owned, QInv;
    if lo < hi {
      HeadsCount(n, s, lo, hi - 1);
      HeadsHave(s, lo, hi - 1, s.h.sub[hi - 1].head);
      if k :| lo <= k < hi - 1 && s.h.sub[k].head == s.h.sub[hi - 1].head {
        SameHead(n, s, k, hi - 1);
      }
    }
  }

  /** The head of the chain that was completed as number `j`. */
  ghost function DoneHead(s: State, j: nat): nat
    requires j < |s.h.completed|
  {
    if s.h.completed[j] < |s.h.sub| then s.h.sub[s.h.completed[j]].head else 0
  }

  /** The heads of the completions from `lo` up to `hi`. */
  ghost function DoneHeads(s: State, lo: nat, hi: nat): set<nat>
    requires lo <= hi <= |s.h.completed|
  {
    if lo == hi then {} else DoneHeads(s, lo, hi - 1) + {DoneHead(s, hi - 1)}
  }

  lemma {:induction false} DoneHeadsHave(s: State, lo: nat, hi: nat, x: nat)
    requires lo <= hi <= |s.h.completed|
    ensures x in DoneHeads(s, lo, hi) <==> exists j :: lo <= j < hi && DoneHead(s, j) == x
  {
    hide DoneHead;
    if lo < hi {
      DoneHeadsHave(s, lo, hi - 1, x);
      assert DoneHead(s, hi - 1) == x ==> exists j :: lo <= j < hi && DoneHead(s, j) == x;
    }
  }

  lemma {:induction false} DoneLive(s: State, j: nat)
    requires Indexes(s) && Stages(s) && s.h.handled <= j < |s.h.completed|
    ensures s.h.completed[j] < |s.h.sub| && s.h.stage[s.h.completed[j]] == Done(j) && Live(s, s.h.completed[j])
  {
    assert DoneAt(s, j);
  }

  lemma {:induction false} DoneHeadsApart(n: nat, s: State, j: nat, k: nat)
    requires Owned(n, s) && QInv(n, s) && s.h.handled <= j < k < |s.h.completed|
    ensures DoneHead(s, j) != DoneHead(s, k)
  {
    hide Owned, Rings, Stages, Waits;
    DoneLive(s, j);
    DoneLive(s, k);
    if DoneHead(s, j) == DoneHead(s, k) {
      SameHead(n, s, s.h.completed[j], s.h.completed[k]);
    }
  }

  lemma {:induction false} DoneHeadsCount(n: nat, s: State, lo: nat, hi: nat)
    requires Owned(n, s) && QInv(n, s) && s.h.handled <= lo <= hi <= |s.h.completed|
    ensures |DoneHeads(s, lo, hi)| == hi - lo
  {
    hide Owned, QInv, DoneHead;
    if lo < hi {
      DoneHeadsCount(n, s, lo, hi - 1);
      DoneHeadsHave(s, lo, hi - 1, DoneHead(s, hi - 1));
      if j :| lo <= j < hi - 1 && DoneHead(s, j) == DoneHead(s, hi - 1) {
        DoneHeadsApart(n, s, j, hi - 1);
      }
    }
  }

  lemma {:induction false} LiveHead(n: nat, s: State, k: nat)
    requires Owned(n, s) && QInv(n, s) && k < |s.h.sub| && Live(s, k)
    ensures LiveAt(s, k) && s.h.sub[k].head < n
  {
    hide Owned, Rings, Stages, Linked;
    assert LiveAt(s, k);
    HeldFacts(n, s, s.h.sub[k].caller);
  }

  lemma {:induction false} QueuedLive(s: State, k: nat)
    requires Indexes(s) && Stages(s) && s.h.fetched <= k < |s.h.sub|
    ensures s.h.stage[k] == Queued && Live(s, k)
  {
    assert StageAt(s, k);
  }

  /** Entries that the device has not fetched never fill the available ring. */
  lemma {:induction false} AvailBound(n: nat, s: State)
    requires Owned(n, s) && QInv(n, s)
    ensures |s.h.sub| - s.h.fetched <= n
  {
    hide Owned, Rings, Stages, Waits;
    var hs := Heads(s, s.h.fetched, |s.h.sub|);
    forall k | s.h.fetched <= k < |s.h.sub| ensures Live(s, k) && s.h.sub[k].head < n {
      QueuedLive(s, k);
      LiveHead(n, s, k);
    }
    HeadsCount(n, s, s.h.fetched, |s.h.sub|);
    forall y | y in hs ensures y < n {
      HeadsHave(s, s.h.fetched, |s.h.sub|, y);
    }
    Below(hs, n);
  }

  lemma {:induction false} AvailRoom(n: nat, s: State, t: nat)
    requires Owned(n, s) && QInv(n, s) && t in s.calls && !s.calls[t].submitted && |s.calls[t].held| == 3
    ensures |s.h.sub| - s.h.fetched < n
  {
    hide Owned, Rings, Stages, Waits;
    var hs := Heads(s, s.h.fetched, |s.h.sub|);
    var x := s.calls[t].held[0];
    HeldFacts(n, s, t);
    forall k | s.h.fetched <= k < |s.h.sub| ensures Live(s, k) && s.h.sub[k].head < n && s.h.sub[k].head != x {
      QueuedLive(s, k);
      LiveHead(n, s, k);
      if s.h.sub[k].head == x {
        Disjoint(n, s, t, s.h.sub[k].caller, 0, 0);
      }
    }
    HeadsCount(n, s, s.h.fetched, |s.h.sub|);
    forall y | y in hs ensures y < n && y != x {
      HeadsHave(s, s.h.fetched, |s.h.sub|, y);
    }
    Below(hs + {x}, n);
  }

  lemma {:induction false} UsedBound(n: nat, s: State)
    requires Owned(n, s) && QInv(n, s)
    ensures |s.h.completed| - s.h.handled <= n
  {
    hide Owned, Rings, Stages, Waits;
    forall j | s.h.handled <= j < |s.h.completed| ensures DoneHead(s, j) < n {
      DoneLive(s, j);
      LiveHead(n, s, s.h.completed[j]);
    }
    DoneHeadsCount(n, s, s.h.handled, |s.h.completed|);
    forall y | y in DoneHeads(s, s.h.handled, |s.h.completed|) ensures y < n {
      DoneHeadsHave(s, s.h.handled, |s.h.completed|, y);
    }
    Below(DoneHeads(s, s.h.handled, |s.h.completed|), n);
  }

  lemma {:induction false} UsedRoom(n: nat, s: State, head: nat)
    requires Owned(n, s) && QInv(n, s) && head in s.dev.inside
    ensures |s.h.completed| - s.h.handled < n
  {
    hide Owned, Rings, Waits, StageAt, DoneAt;
    assert InsideAt(s, head);
    LiveHead(n, s, s.dev.inside[head]);
    forall j | s.h.handled <= j < |s.h.completed| ensures DoneHead(s, j) < n && DoneHead(s, j) != head {
      DoneLive(s, j);
      LiveHead(n, s, s.h.completed[j]);
      if s.h.sub[s.h.completed[j]].head == head {
        SameHead(n, s, s.h.completed[j], s.dev.inside[head]);
      }
    }
    DoneHeadsCount(n, s, s.h.handled, |s.h.completed|);
    forall y | y in DoneHeads(s, s.h.handled, |s.h.completed|) ensures y < n && y != head {
      DoneHeadsHave(s, s.h.handled, |s.h.completed|, y);
    }
    Below(DoneHeads(s, s.h.handled, |s.h.completed|) + {head}, n);
  }

  // ---- wrap-around -------------------------------------------------------------------------------------------

  /** The slot of a wrapped index is the slot of the true one. */
  lemma {:induction false} WrappedSlot(n: nat, x: nat)
    requires QueueSize(n)
    ensures x % U16 % n == x % n
  {
    var m, q := U16 / n, x / U16;
    assert U16 == m * n;
    assert x == q * U16 + x % U16;
    assert q * U16 == (q * m) * n;
    Multiple(q * m, x % U16, n);
  }

  lemma {:induction false} WrappedNext(x: nat)
    ensures (x % U16 + 1) % U16 == (x + 1) % U16
  {
  }

  lemma {:induction false} WrappedEqual(x: nat, y: nat)
    requires x <= y < x + U16
    ensures x % U16 == y % U16 <==> x == y
  {
  }
}
