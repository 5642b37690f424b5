/** The critical sections of the driver on its arrays, against the functions that the transition system is made of. */
module VirtioDisk {
  import opened Bitmap
  import opened Virtio

  /** How many completions the handler has not seen. */
  function Unseen(q: Queue): nat
    requires q.seen < U16 && q.usedIdx < U16
  {
    if q.seen <= q.usedIdx then q.usedIdx - q.seen else q.usedIdx + U16 - q.seen
  }

  /** All completions that are in the used ring, one after the other. */
  ghost function Handled(q: Queue): Queue
    requires Sound(q)
    decreases Unseen(q)
  {
    if q.seen == q.usedIdx then q else Handled(HandleOne(q))
  }

  ghost predicate Sound(q: Queue) {
    |q.used| > 0 && q.seen < U16 && q.usedIdx < U16 && forall i :: 0 <= i < |q.used| ==> q.used[i] < |q.info|
  }

  lemma {:induction false} HandledStep(q: Queue)
    requires Sound(q) && q.seen != q.usedIdx
    ensures Sound(HandleOne(q)) && Handled(q) == Handled(HandleOne(q)) && Unseen(HandleOne(q)) < Unseen(q)
  {
    WrapOne(q.seen);
  }

  lemma {:induction false} WrapOne(x: nat)
    requires x < U16
    ensures (x + 1) % U16 == if x + 1 == U16 then 0 else x + 1
  {
  }

  /** The `k`-th completion that the handler has not seen. */
  function Completion(q: Queue, k: nat): nat
    requires |q.used| > 0
  {
    q.used[(q.seen + k) % U16 % |q.used|]
  }

  /** One of the entries from `seen` up to `usedIdx` reports the chain `id`. */
  ghost predicate Reported(q: Queue, id: nat)
    requires Sound(q)
  {
    exists k :: 0 <= k < Unseen(q) && Completion(q, k) == id
  }

  lemma {:induction false} CompletionNext(q: Queue, k: nat)
    requires Sound(q) && q.seen != q.usedIdx && k < U16
    ensures Completion(q, 0) == NextUsed(q) && Completion(HandleOne(q), k) == Completion(q, k + 1)
    ensures Unseen(HandleOne(q)) == Unseen(q) - 1
  {
    WrapOne(q.seen);
    assert ((q.seen + 1) % U16 + k) % U16 == (q.seen + (k + 1)) % U16;
  }

  lemma {:induction false} ReportedNext(q: Queue, id: nat)
    requires Sound(q) && q.seen != q.usedIdx && Sound(HandleOne(q))
    ensures Reported(q, id) <==> id == NextUsed(q) || Reported(HandleOne(q), id)
  {
    hide HandleOne, Completion;
    var r := HandleOne(q);
    CompletionNext(q, 0);
    if k :| 0 <= k < Unseen(q) && Completion(q, k) == id {
      if k > 0 {
        CompletionNext(q, k - 1);
        assert Completion(r, k - 1) == id;
      }
    }
    if k :| 0 <= k < Unseen(r) && Completion(r, k) == id {
      CompletionNext(q, k);
      assert Completion(q, k + 1) == id;
    }
    assert Completion(q, 0) == NextUsed(q) && 0 < Unseen(q);
  }

  /** Exactly the operations that the ring reports are no longer in use, and nothing else in memory has changed. */
  lemma {:induction false} HandledInfo(q: Queue, id: nat)
    requires Sound(q) && id < |q.info|
    ensures Handled(q) == q.(info := Handled(q).info, seen := q.usedIdx) && |Handled(q).info| == |q.info|
    ensures Handled(q).info[id] == if Reported(q, id) then Info(q.info[id].addr, false) else q.info[id]
    decreases Unseen(q)
  {
    hide Reported;
    if q.seen == q.usedIdx {
      assert !Reported(q, id) by { NothingReported(q, id); }
    } else {
      HandledStep(q);
      ReportedNext(q, id);
      HandledInfo(HandleOne(q), id);
    }
  }

  lemma {:induction false} NothingReported(q: Queue, id: nat)
    requires Sound(q) && q.seen == q.usedIdx
    ensures !Reported(q, id)
  {
  }

  class Disk {
    const desc: array<Descriptor>
    const ops: array<BlockRequest>
    const info: array<Info>
    const avail: array<nat>
    var availIdx: nat
    const used: array<nat>
    var usedIdx: nat
    var seen: nat
    const free: Bitmap

    ghost function Memory(): Queue
      reads this, desc, ops, info, avail, used
    {
      Queue(desc[..], ops[..], info[..], avail[..], availIdx, used[..], usedIdx, seen)
    }

    ghost predicate Valid()
      reads this
    {
      && 0 < desc.Length == ops.Length == info.Length == avail.Length == used.Length
      && avail != used && availIdx < U16 && usedIdx < U16 && seen < U16
      && free.Valid() && free.bits == desc.Length
    }

    constructor (n: nat)
      requires n > 0
      ensures Valid() && desc.Length == n && availIdx == 0 && usedIdx == 0 && seen == 0
      ensures forall i :: 0 <= i < n ==> !free.IsSet(i)
    {
      desc := new Descriptor[n](i => Descriptor(ToData(0), 0, 0, 0));
      ops := new BlockRequest[n](i => BlockRequest(0, false));
      info := new Info[n](i => Info(0, false));
      avail := new nat[n](i => 0);
      used := new nat[n](i => 0);
      availIdx, usedIdx, seen := 0, 0, 0;
      free := new Bitmap(n);
    }

    /** The allocation loop of `rw` up to the point where it is done or must sleep. */
    method AllocateChain(held: seq<nat>) returns (chain: seq<nat>)
      requires Valid() && |held| <= 3
      modifies free.bytes
      ensures |held| <= |chain| <= 3 && chain[..|held|] == held
      ensures |chain| == 3 || forall i :: 0 <= i < free.bits ==> free.IsSet(i)
      ensures forall k :: |held| <= k < |chain| ==> chain[k] < free.bits && !old(free.IsSet(chain[k]))
      ensures forall k, l :: |held| <= k < l < |chain| ==> chain[k] < chain[l]
      ensures forall i :: 0 <= i < free.bits ==> (free.IsSet(i) <==> old(free.IsSet(i)) || i in chain[|held|..])
    {
      chain := held;
      while |chain| < 3
        invariant |held| <= |chain| <= 3 && chain[..|held|] == held
        invariant forall k :: |held| <= k < |chain| ==> chain[k] < free.bits && !old(free.IsSet(chain[k]))
        invariant forall k, l :: |held| <= k < l < |chain| ==> chain[k] < chain[l]
        invariant forall k, i :: |held| <= k < |chain| && 0 <= i < chain[k] ==> free.IsSet(i)
        invariant forall i :: 0 <= i < free.bits ==> (free.IsSet(i) <==> old(free.IsSet(i)) || i in chain[|held|..])
        decreases 3 - |chain|
      {
        var d := free.Allocate();
        if d.None? {
          return;
        }
        ghost var before := chain[|held|..];
        forall k | |held| <= k < |chain| ensures chain[k] < d.value {
          assert chain[k] in before;
        }
        chain := chain + [d.value];
        assert chain[|held|..] == before + [d.value];
      }
    }

    /** The chain, the info slot and the ring entry of a complete set of descriptors. */
    method Publish(args: Args, held: seq<nat>)
      requires Valid() && |held| == 3 && InRange(desc.Length, held)
      modifies this`availIdx, desc, ops, info, avail
      ensures Valid() && Memory() == Written(old(Memory()), Call(args, held, false, 0, false))
    {
      ops[held[0]] := BlockRequest(args.block * (args.size / 512), args.write);
      desc[held[0]] := Descriptor(ToOps(held[0]), 16, F_NEXT, held[1]);
      desc[held[1]] := Descriptor(ToData(args.addr), args.size, if args.write then F_NEXT
          else F_NEXT + F_WRITE, held[2]);
      info[held[0]] := Info(args.addr, true);
      desc[held[2]] := Descriptor(ToStatus(held[0]), 1, F_WRITE, 0);
      var ringIndex := availIdx % avail.Length;
      avail[ringIndex] := held[0];
      availIdx := (availIdx + 1) % U16;
    }

    method HandleNext()
      requires Valid() && Sound(Memory())
      modifies this`seen, info
      ensures Valid() && Memory() == HandleOne(old(Memory()))
    {
      var id := used[seen % used.Length];
      info[id] := Info(info[id].addr, false);
      seen := (seen + 1) % U16;
    }

    /** `interrupt_handler` while the device adds nothing: it runs until it has seen every completion, and clears
        exactly the operations that are reported. */
    method InterruptHandler()
      requires Valid() && Sound(Memory())
      modifies this`seen, info
      ensures Valid() && Memory() == Handled(old(Memory())) && seen == usedIdx
      ensures forall id :: 0 <= id < info.Length ==>
        info[id] == if old(Reported(Memory(), id)) then Info(old(info[id]).addr, false) else old(info[id])
    {
      hide Sound, HandleOne, Unseen;
      while seen != usedIdx
        invariant Valid() && Sound(Memory())
        invariant Handled(Memory()) == Handled(old(Memory()))
        decreases Unseen(Memory())
      {
        HandledStep(Memory());
        HandleNext();
      }
      ghost var q := old(Memory());
      forall id | 0 <= id < info.Length
        ensures info[id] == if Reported(q, id) then Info(q.info[id].addr, false) else q.info[id] {
        HandledInfo(q, id);
        assert Memory().info[id] == info[id];
      }
    }

    /** The end of `rw`: the `unwrap`s of its deallocations hold, because the caller still has its descriptors. */
    method Finish(held: seq<nat>)
      requires Valid() && |held| == 3 && InRange(desc.Length, held)
      requires held[0] != held[1] && held[0] != held[2] && held[1] != held[2]
      requires forall k :: 0 <= k < 3 ==> free.IsSet(held[k])
      modifies free.bytes
      ensures forall i :: 0 <= i < free.bits ==> (free.IsSet(i) <==> old(free.IsSet(i)) && i !in held)
    {
      var ok := free.Deallocate(held[0]);
      assert ok;
      ok := free.Deallocate(held[1]);
      assert ok;
      ok := free.Deallocate(held[2]);
      assert ok;
      assert held == [held[0], held[1], held[2]];
    }
  }
}
