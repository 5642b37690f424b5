/** A cache directory: an array of slots threaded into a circular doubly linked list, and reference counts on top. */
module Cache {
  import opened Options

  datatype Link<Key> = Link(index: nat, next: nat, prev: nat, key: Option<Key>)

  function Succ(i: nat, n: nat): nat {
    if i + 1 == n then 0 else i + 1
  }

  function Pred(i: nat, n: nat): nat
    requires n > 0
  {
    if i == 0 then n - 1 else i - 1
  }

  /** `order` lists all slots once, `pos` is its inverse. */
  ghost predicate Permutation(n: nat, order: seq<nat>, pos: map<nat, nat>) {
    && |order| == n
    && (forall i :: 0 <= i < n ==> order[i] in pos && pos[order[i]] == i)
    && (forall j :: j in pos <==> 0 <= j < n)
    && (forall j :: j in pos ==> 0 <= pos[j] < n && order[pos[j]] == j)
  }

  /** The links form one circle that passes every slot in the order `order`. */
  ghost predicate Ring<Key>(links: seq<Link<Key>>, order: seq<nat>, pos: map<nat, nat>) {
    && Permutation(|links|, order, pos)
    && forall j {:trigger links[j]} :: 0 <= j < |links| ==>
        && links[j].next == order[Succ(pos[j], |links|)]
        && links[j].prev == order[Pred(pos[j], |links|)]
  }

  /** The circle after slot `index` has moved to the end. */
  function ToEnd(order: seq<nat>, k: nat): seq<nat>
    requires k < |order|
  {
    order[..k] + order[k + 1..] + [order[k]]
  }

  ghost function ToEndPos(pos: map<nat, nat>, index: nat, n: nat): map<nat, nat>
    requires index in pos && n > 0
  {
    map j | j in pos :: (if j == index then n - 1 else if pos[j] > pos[index] then pos[j] - 1 else pos[j]) as nat
  }

  lemma {:induction false} ToEndPermutes(n: nat, order: seq<nat>, pos: map<nat, nat>, index: nat)
    requires Permutation(n, order, pos) && index < n
    ensures Permutation(n, ToEnd(order, pos[index]), ToEndPos(pos, index, n))
  {
  }

  /** The pointer updates of `Cache::remove` when the slot is neither head nor tail. */
  function Relink<Key>(links: seq<Link<Key>>, index: nat, head: nat, tail: nat): seq<Link<Key>>
    requires index < |links| && head < |links| && tail < |links|
    requires links[index].next < |links| && links[index].prev < |links|
  {
    var next, prev := links[index].next, links[index].prev;
    var a := links[next := links[next].(prev := prev)];
    var b := a[prev := a[prev].(next := next)];
    var c := b[index := b[index].(next := head, prev := tail)];
    var d := c[head := c[head].(prev := index)];
    d[tail := d[tail].(next := index)]
  }

  lemma {:induction false} RelinkAt<Key>(links: seq<Link<Key>>, index: nat, head: nat, tail: nat, j: nat)
    requires index < |links| && head < |links| && tail < |links| && j < |links|
    requires links[index].next < |links| && links[index].prev < |links|
    requires index != head && index != tail && links[index].next != index && links[index].prev != index
    ensures var after, next, prev := Relink(links, index, head, tail), links[index].next, links[index].prev;
            && after[j].next == (if j == tail then index else if j == index then head
                                 else if j == prev then next else links[j].next)
            && after[j].prev == (if j == head then index else if j == index then tail
                                 else if j == next then prev else links[j].prev)
            && after[j].key == links[j].key && after[j].index == links[j].index
  {
  }

  lemma {:induction false} RelinkNext<Key>(links: seq<Link<Key>>, order: seq<nat>, pos: map<nat, nat>, index: nat,
      j: nat)
    requires Ring(links, order, pos) && index < |links| && 0 < pos[index] < |links| - 1 && j < |links|
    ensures Relink(links, index, order[0], order[|links| - 1])[j].next
            == ToEnd(order, pos[index])[Succ(ToEndPos(pos, index, |links|)[j], |links|)]
  {
    hide Relink, ToEnd;
    var n, k, i := |links|, pos[index], pos[j];
    assert links[index].next == order[k + 1] && links[index].prev == order[k - 1];
    assert links[j].next == order[Succ(i, n)];
    RelinkAt(links, index, order[0], order[n - 1], j);
    ToEndAt(order, k, Succ(ToEndPos(pos, index, n)[j], n));
  }

  lemma {:induction false} RelinkPrev<Key>(links: seq<Link<Key>>, order: seq<nat>, pos: map<nat, nat>, index: nat,
      j: nat)
    requires Ring(links, order, pos) && index < |links| && 0 < pos[index] < |links| - 1 && j < |links|
    ensures Relink(links, index, order[0], order[|links| - 1])[j].prev
            == ToEnd(order, pos[index])[Pred(ToEndPos(pos, index, |links|)[j], |links|)]
  {
    hide Relink, ToEnd;
    var n, k, i := |links|, pos[index], pos[j];
    assert links[index].next == order[k + 1] && links[index].prev == order[k - 1];
    assert links[j].prev == order[Pred(i, n)];
    RelinkAt(links, index, order[0], order[n - 1], j);
    ToEndAt(order, k, Pred(ToEndPos(pos, index, n)[j], n));
  }

  lemma {:induction false} RelinkRing<Key>(links: seq<Link<Key>>, order: seq<nat>, pos: map<nat, nat>, index: nat)
    requires Ring(links, order, pos) && index < |links| && 0 < pos[index] < |links| - 1
    ensures Ring(Relink(links, index, order[0], order[|links| - 1]), ToEnd(order, pos[index]),
      ToEndPos(pos, index, |links|))
  {
    ToEndPermutes(|links|, order, pos, index);
    var after := Relink(links, index, order[0], order[|links| - 1]);
    assert |after| == |links|;
    hide Relink, ToEnd, ToEndPos;
    forall j {:trigger after[j]} | 0 <= j < |links|
      ensures after[j].next == ToEnd(order, pos[index])[Succ(ToEndPos(pos, index, |links|)[j], |links|)]
      ensures after[j].prev == ToEnd(order, pos[index])[Pred(ToEndPos(pos, index, |links|)[j], |links|)]
    {
      RelinkNext(links, order, pos, index, j);
      RelinkPrev(links, order, pos, index, j);
    }
  }

  lemma {:induction false} ToEndAt(order: seq<nat>, k: nat, i: nat)
    requires k < |order| && i < |order|
    ensures ToEnd(order, k)[i] == if i < k then order[i] else if i < |order| - 1 then order[i + 1] else order[k]
  {
  }

  lemma {:induction false} RotateRing<Key>(links: seq<Link<Key>>, order: seq<nat>, pos: map<nat, nat>)
    requires Ring(links, order, pos) && |links| > 0
    ensures Ring(links, ToEnd(order, 0), ToEndPos(pos, order[0], |links|))
  {
    ToEndPermutes(|links|, order, pos, order[0]);
  }

  lemma {:induction false} RingAt<Key>(links: seq<Link<Key>>, order: seq<nat>, pos: map<nat, nat>, k: nat)
    requires Ring(links, order, pos) && k < |links|
    ensures |order| == |links| && order[k] < |links|
    ensures links[order[k]].next == order[Succ(k, |links|)] && links[order[k]].prev == order[Pred(k, |links|)]
    ensures forall i :: 0 <= i < |links| && order[i] == order[k] ==> i == k
  {
  }

  lemma {:induction false} RingCovers<Key>(links: seq<Link<Key>>, order: seq<nat>, pos: map<nat, nat>, j: nat)
    requires Ring(links, order, pos) && j < |links|
    ensures |order| == |links| && j in pos && pos[j] < |links| && order[pos[j]] == j
  {
  }

  /** The slot that `k` steps along `next` lead to. */
  function Follow<Key>(links: seq<Link<Key>>, i: nat, k: nat): nat {
    if k == 0 then i else
      var j := Follow(links, i, k - 1);
      if j < |links| then links[j].next else j
  }

  function FollowBack<Key>(links: seq<Link<Key>>, i: nat, k: nat): nat {
    if k == 0 then i else
      var j := FollowBack(links, i, k - 1);
      if j < |links| then links[j].prev else j
  }

  lemma {:induction false} FollowOrder<Key>(links: seq<Link<Key>>, order: seq<nat>, pos: map<nat, nat>, k: nat)
    requires Ring(links, order, pos) && k < |links|
    ensures |order| == |links|
    ensures Follow(links, order[0], k) == order[k] && FollowBack(links, order[|links| - 1], k) == order[|links| - 1 - k]
  {
    hide Ring;
    RingAt(links, order, pos, k);
    if k > 0 {
      FollowOrder(links, order, pos, k - 1);
      RingAt(links, order, pos, k - 1);
      RingAt(links, order, pos, |links| - k);
    }
  }

  /** Both traversals pass every slot exactly once: slot `j` comes after `pos[j]` steps from the head and after no other
      number of steps below the number of slots, and likewise backwards from the tail. */
  lemma {:induction false} TraversalsCover<Key>(links: seq<Link<Key>>, order: seq<nat>, pos: map<nat, nat>, j: nat,
      k: nat)
    requires Ring(links, order, pos) && j < |links| && k < |links|
    ensures |order| == |links| && j in pos && pos[j] < |links|
    ensures Follow(links, order[0], k) == j <==> k == pos[j]
    ensures FollowBack(links, order[|links| - 1], k) == j <==> k == |links| - 1 - pos[j]
  {
    hide Ring;
    FollowOrder(links, order, pos, k);
    RingCovers(links, order, pos, j);
    RingAt(links, order, pos, pos[j]);
  }

  ghost predicate UniqueKeys<Key>(links: seq<Link<Key>>) {
    forall i, j {:trigger links[i].key, links[j].key} ::
      0 <= i < |links| && 0 <= j < |links| && links[i].key.Some? && links[i].key == links[j].key ==> i == j
  }

  /** Slots come in the order of their last removal. */
  ghost predicate ByRemoval(order: seq<nat>, removed: map<nat, nat>) {
    forall i, j {:trigger order[i], order[j]} :: 0 <= i <= j < |order| ==>
      order[i] in removed && order[j] in removed && removed[order[i]] <= removed[order[j]]
  }

  lemma {:induction false} ToEndByRemoval(order: seq<nat>, pos: map<nat, nat>, removed: map<nat, nat>, index: nat,
      clock: nat)
    requires Permutation(|order|, order, pos) && ByRemoval(order, removed) && index < |order|
    requires forall j :: j in removed ==> removed[j] <= clock
    ensures ByRemoval(ToEnd(order, pos[index]), removed[index := clock])
  {
    var k := pos[index];
    forall i, j | 0 <= i <= j < |order|
      ensures var o, r := ToEnd(order, k), removed[index := clock];
              o[i] in r && o[j] in r && r[o[i]] <= r[o[j]]
    {
      hide ToEnd;
      ToEndAt(order, k, i);
      ToEndAt(order, k, j);
    }
  }

  lemma {:induction false} KeyCleared<Key>(links: seq<Link<Key>>, order: seq<nat>, pos: map<nat, nat>, index: nat)
    requires Ring(links, order, pos) && UniqueKeys(links) && index < |links|
    ensures var l := links[index := links[index].(key := None)]; Ring(l, order, pos) && UniqueKeys(l)
  {
  }

  /** What `Cache::remove` makes of the circle, by the position of the slot in it. */
  lemma {:induction false} Moved<Key>(links: seq<Link<Key>>, order: seq<nat>, pos: map<nat, nat>, index: nat)
    requires Ring(links, order, pos) && index < |links| && UniqueKeys(links)
    ensures |order| == |links| && index in pos && pos[index] < |links|
    ensures var n, k := |links|, pos[index];
            var order', pos' := ToEnd(order, k), ToEndPos(pos, index, n);
            && |order'| == n && order'[n - 1] == index
            && (order[0] == index <==> k == 0) && (order[n - 1] == index <==> k == n - 1)
            && (k == 0 ==> Ring(links, order', pos') && order'[0] == links[index].next)
            && (k == n - 1 ==> Ring(links, order', pos') && order'[0] == order[0])
            && (0 < k < n - 1 ==>
                  && order[0] < n && order[n - 1] < n && links[index].next < n && links[index].prev < n
                  && var l := Relink(links, index, order[0], order[n - 1]);
                  && Ring(l, order', pos') && order'[0] == order[0] && UniqueKeys(l)
                  && forall j :: 0 <= j < n ==> l[j].key == links[j].key)
  {
    var n, k := |links|, pos[index];
    RingCovers(links, order, pos, index);
    RingAt(links, order, pos, k);
    ToEndAt(order, k, 0);
    ToEndAt(order, k, n - 1);
    if k == 0 {
      RotateRing(links, order, pos);
    } else if k == n - 1 {
      assert ToEnd(order, k) == order;
      assert ToEndPos(pos, index, n) == pos;
    } else {
      RelinkRing(links, order, pos, index);
      RelinkKeys(links, order, pos, index);
    }
  }

  lemma {:induction false} RelinkKeys<Key>(links: seq<Link<Key>>, order: seq<nat>, pos: map<nat, nat>, index: nat)
    requires Ring(links, order, pos) && index < |links| && 0 < pos[index] < |links| - 1 && UniqueKeys(links)
    ensures var l := Relink(links, index, order[0], order[|links| - 1]);
            |l| == |links| && UniqueKeys(l) && forall j :: 0 <= j < |l| ==> l[j].key == links[j].key
  {
    RingAt(links, order, pos, pos[index]);
    RingAt(links, order, pos, 0);
    RingAt(links, order, pos, |links| - 1);
    var l := Relink(links, index, order[0], order[|links| - 1]);
    assert |l| == |links|;
    hide Relink, Ring;
    forall j {:trigger l[j]} | 0 <= j < |l| ensures l[j].key == links[j].key {
      RelinkAt(links, index, order[0], order[|links| - 1], j);
    }
  }

  ghost function Identity(n: nat): (order: seq<nat>)
    ensures |order| == n && forall j :: 0 <= j < n ==> order[j] == j
  {
    if n == 0 then [] else Identity(n - 1) + [n - 1]
  }

  lemma {:induction false} InitialRing<Key>(links: seq<Link<Key>>, order: seq<nat>, pos: map<nat, nat>,
      removed: map<nat, nat>)
    requires |links| > 0 && order == Identity(|links|)
    requires pos == (map j | j in order :: j) && removed == (map j | j in order :: 0)
    requires forall j :: 0 <= j < |links| ==> links[j].key == None
    requires forall j :: 0 <= j < |links| ==> links[j].next == Succ(j, |links|) && links[j].prev == Pred(j, |links|)
    ensures Ring(links, order, pos) && UniqueKeys(links) && ByRemoval(order, removed)
    ensures forall j :: j in removed ==> removed[j] == 0
  {
    forall j ensures j in pos <==> 0 <= j < |links| {
      if 0 <= j < |links| {
        assert order[j] in order;
      }
    }
  }

  class Cache<Key(==)> {
    const links: array<Link<Key>>
    var head: nat
    var tail: nat
    ghost var order: seq<nat>
    ghost var pos: map<nat, nat>
    ghost var removed: map<nat, nat>
    ghost var clock: nat

    ghost predicate Valid()
      reads this, links
    {
      && links.Length > 0
      && Ring(links[..], order, pos)
      && head == order[0] && tail == order[links.Length - 1]
      && UniqueKeys(links[..])
      && ByRemoval(order, removed)
      && forall j :: j in removed ==> removed[j] <= clock
    }

    constructor (n: nat)
      requires n > 0
      ensures Valid() && fresh(links) && links.Length == n
      ensures forall i :: 0 <= i < n ==> links[i].key == None
      ensures order == Identity(n)
    {
      hide Ring, UniqueKeys, ByRemoval;
      links := new Link<Key>[n](i => Link(0, 0, 0, None));
      head, tail := 0, 0;
      var all := Identity(n);
      order, pos, removed, clock := all, map j | j in all :: j, map j | j in all :: 0, 0;
      new;
      for i := 0 to n
        modifies links
        invariant forall j :: 0 <= j < n ==> links[j].key == None
      {
        links[i] := links[i].(index := i);
      }
      Thread();
      InitialRing(links[..], order, pos, removed);
    }

    /** Threads the slots one behind the other. */
    method Thread()
      requires links.Length > 0 && head == 0 && tail == 0 && forall j :: 0 <= j < links.Length ==> links[j].key == None
      modifies links, this`tail
      ensures tail == links.Length - 1
      ensures forall j :: 0 <= j < links.Length ==>
        links[j].key == None && links[j].next == Succ(j, links.Length) && links[j].prev == Pred(j, links.Length)
    {
      links[0] := links[0].(next := 0);
      links[0] := links[0].(prev := 0);
      for i := 1 to links.Length
        modifies links, this`tail
        invariant head == 0 && tail == i - 1
        invariant forall j :: 0 <= j < links.Length ==> links[j].key == None
        invariant forall j :: 0 <= j < i ==> links[j].next == Succ(j, i) && links[j].prev == Pred(j, i)
      {
        links[i] := links[i].(prev := tail);
        links[i] := links[i].(next := head);
        links[head] := links[head].(prev := i);
        links[tail] := links[tail].(next := i);
        tail := i;
      }
    }

    /** The first slot of the list that holds `key`. */
    method Find(key: Key) returns (r: Option<nat>)
      requires Valid()
      ensures r.Some? ==> r.value < links.Length && links[r.value].key == Some(key)
      ensures r.None? ==> forall i :: 0 <= i < links.Length ==> links[i].key != Some(key)
    {
      hide Ring, ByRemoval, UniqueKeys;
      var cur := head;
      ghost var k := 0;
      RingAt(links[..], order, pos, 0);
      while true
        invariant 0 <= k < links.Length && cur == order[k]
        invariant forall m :: 0 <= m < k ==> order[m] < links.Length && links[order[m]].key != Some(key)
        decreases links.Length - k
      {
        RingAt(links[..], order, pos, k);
        if links[cur].key == Some(key) {
          return Some(cur);
        }
        if cur == tail {
          break;
        }
        cur := links[cur].next;
        k := k + 1;
      }
      r := None;
      forall i | 0 <= i < links.Length ensures links[i].key != Some(key) {
        RingCovers(links[..], order, pos, i);
      }
    }

    /** The free slot that was removed last. */
    method FindUnused() returns (r: Option<nat>)
      requires Valid()
      ensures r.Some? ==> r.value < links.Length && links[r.value].key == None
      ensures r.Some? ==> forall i :: 0 <= i < links.Length && links[i].key == None ==>
                pos[i] <= pos[r.value] && removed[i] <= removed[r.value]
      ensures r.None? ==> forall i :: 0 <= i < links.Length ==> links[i].key.Some?
    {
      hide Ring, UniqueKeys;
      var cur := tail;
      ghost var k := links.Length - 1;
      RingAt(links[..], order, pos, k);
      while true
        invariant 0 <= k < links.Length && cur == order[k]
        invariant forall m :: k < m < links.Length ==> order[m] < links.Length && links[order[m]].key.Some?
        decreases k
      {
        RingAt(links[..], order, pos, k);
        if links[cur].key == None {
          RingCovers(links[..], order, pos, cur);
          forall i | 0 <= i < links.Length && links[i].key == None
            ensures i in pos && i in removed && pos[i] <= pos[cur] && removed[i] <= removed[cur]
          {
            RingCovers(links[..], order, pos, i);
          }
          return Some(cur);
        }
        if cur == head {
          break;
        }
        cur := links[cur].prev;
        k := k - 1;
      }
      r := None;
      forall i | 0 <= i < links.Length ensures links[i].key.Some? {
        RingCovers(links[..], order, pos, i);
      }
    }

    method Get(key: Key) returns (r: Option<(nat, bool)>)
      requires Valid()
      modifies links
      ensures Valid()
      ensures r.None? <==>
        forall i :: 0 <= i < links.Length ==> old(links[i].key).Some? && old(links[i].key) != Some(key)
      ensures r.None? ==> links[..] == old(links[..])
      ensures r.Some? ==>
        var (i, isNew) := r.value;
        && i < links.Length
        && links[..] == old(links[..])[i := old(links[i]).(key := Some(key))]
        && (isNew <==> forall j :: 0 <= j < links.Length ==> old(links[j].key) != Some(key))
        && (!isNew ==> old(links[i].key) == Some(key))
        && (isNew ==> old(links[i].key) == None && forall j :: 0 <= j < links.Length && old(links[j].key) == None ==>
             removed[j] <= removed[i])
    {
      var found := Find(key);
      if found.Some? {
        assert links[..] == links[..][found.value := links[found.value].(key := Some(key))];
        return Some((found.value, false));
      }
      var unused := FindUnused();
      if unused.Some? {
        var i := unused.value;
        links[i] := links[i].(key := Some(key));
        assert links[..] == old(links[..])[i := old(links[i]).(key := Some(key))];
        return Some((i, true));
      }
      r := None;
    }

    method Remove(index: nat) returns (r: Option<()>)
      requires Valid()
      modifies this`head, this`tail, this`order, this`pos, this`removed, this`clock, links
      ensures Valid()
      ensures r.None? <==> index >= links.Length
      ensures r.None? ==> links[..] == old(links[..]) && order == old(order)
      ensures r.Some? ==>
        && order == ToEnd(old(order), old(pos[index]))
        && (forall i :: 0 <= i < links.Length ==> links[i].key == if i == index then None else old(links[i].key))
        && clock == old(clock) + 1 && removed == old(removed)[index := clock]
    {
      hide Ring, ToEnd, ToEndPos, ByRemoval, UniqueKeys, Relink;
      if index >= links.Length {
        return None;
      }
      RingCovers(links[..], order, pos, index);
      KeyCleared(links[..], order, pos, index);
      links[index] := links[index].(key := None);
      assert links[..] == old(links[..])[index := old(links[index]).(key := None)];
      ToEndByRemoval(order, pos, removed, index, clock + 1);
      Moved(links[..], order, pos, index);
      RingAt(links[..], order, pos, pos[index]);
      if head == index {
        head := links[index].next;
        tail := index;
      } else if tail == index {
      } else {
        Splice(index);
        tail := index;
      }
      clock := clock + 1;
      removed := removed[index := clock];
      order, pos := ToEnd(order, pos[index]), ToEndPos(pos, index, links.Length);
      return Some(());
    }

    /** Unlinks slot `index` and inserts it between the tail and the head. */
    method Splice(index: nat)
      requires index < links.Length && head < links.Length && tail < links.Length
      requires links[index].next < links.Length && links[index].prev < links.Length
      modifies links
      ensures links[..] == Relink(old(links[..]), index, head, tail)
    {
      var next, prev := links[index].next, links[index].prev;
      links[next] := links[next].(prev := prev);
      links[prev] := links[prev].(next := next);
      links[index] := links[index].(next := head);
      links[index] := links[index].(prev := tail);
      links[head] := links[head].(prev := index);
      links[tail] := links[tail].(next := index);
    }
  }

  /** The directory with a reference count on every slot. */
  class RcCache<Key(==)> {
    const cache: Cache<Key>
    const counts: array<nat>

    ghost function Footprint(): set<object> {
      {this, cache, cache.links, counts}
    }

    ghost predicate Valid()
      reads this, cache, cache.links, counts
    {
      && cache.Valid() && counts.Length == cache.links.Length
      && counts as object != cache.links
    }

    /** A slot is referenced exactly when it has a key. */
    ghost predicate Consistent()
      requires Valid()
      reads this, cache, cache.links, counts
    {
      forall i :: 0 <= i < counts.Length ==> (counts[i] > 0 <==> cache.links[i].key.Some?)
    }

    constructor (n: nat)
      requires n > 0
      ensures Valid() && Consistent() && fresh(cache) && fresh(cache.links) && fresh(counts) && counts.Length == n
      ensures forall i :: 0 <= i < n ==> cache.links[i].key == None
    {
      cache := new Cache<Key>(n);
      counts := new nat[n](i => 0);
    }

    method Get(key: Key) returns (r: Option<(nat, bool)>)
      requires Valid()
      modifies cache.links, counts
      ensures Valid() && (old(Consistent()) ==> Consistent())
      ensures r.None? <==> forall i :: 0 <= i < counts.Length ==>
                old(cache.links[i].key).Some? && old(cache.links[i].key) != Some(key)
      ensures r.None? ==> cache.links[..] == old(cache.links[..]) && counts[..] == old(counts[..])
      ensures r.Some? ==>
        var (i, isNew) := r.value;
        && i < counts.Length
        && (forall j :: 0 <= j < counts.Length ==>
          cache.links[j].key == if j == i then Some(key) else old(cache.links[j].key))
        && counts[..] == old(counts[..])[i := old(counts[i]) + 1]
        && old(cache.links[i].key) == (if isNew then None else Some(key))
        && (isNew <==> forall j :: 0 <= j < counts.Length ==> old(cache.links[j].key) != Some(key))
        && (isNew ==> forall j :: 0 <= j < counts.Length && old(cache.links[j].key) == None ==>
              cache.removed[j] <= cache.removed[i])
    {
      hide Ring, UniqueKeys, ByRemoval;
      r := cache.Get(key);
      if r.Some? {
        counts[r.value.0] := counts[r.value.0] + 1;
      }
    }

    /** Counts a second handle on a slot; the count stays in step with the keys exactly if the slot was live. */
    method Duplicate(index: nat) returns (r: Option<nat>)
      requires Valid()
      modifies counts
      ensures Valid()
      ensures r == if index < counts.Length then Some(index) else None
      ensures r.None? ==> counts[..] == old(counts[..])
      ensures r.Some? ==> counts[..] == old(counts[..])[index := old(counts[index]) + 1]
      ensures r.Some? && old(Consistent()) ==> (Consistent() <==> old(counts[index]) > 0)
    {
      hide Ring, UniqueKeys, ByRemoval;
      if index >= counts.Length {
        return None;
      }
      counts[index] := counts[index] + 1;
      return Some(index);
    }

    /** Gives up one handle; the last one frees the slot.  Releasing a slot without handles is unreachable code. */
    method Release(index: nat) returns (r: Option<bool>)
      requires Valid()
      requires index < counts.Length ==> counts[index] > 0
      modifies cache, cache.links, counts
      ensures Valid() && (old(Consistent()) ==> Consistent())
      ensures r == if index < counts.Length then Some(old(counts[index]) == 1) else None
      ensures r.None? ==> cache.links[..] == old(cache.links[..]) && counts[..] == old(counts[..])
      ensures r.Some? ==> counts[..] == old(counts[..])[index := old(counts[index]) - 1]
      ensures r.Some? ==> forall j :: 0 <= j < counts.Length ==>
        cache.links[j].key == if r.value && j == index then None else old(cache.links[j].key)
      ensures r == Some(true) ==> cache.order == ToEnd(old(cache.order), old(cache.pos[index]))
      ensures r == Some(false) ==> cache.order == old(cache.order)
    {
      hide Ring, UniqueKeys, ByRemoval, ToEnd;
      if index >= counts.Length {
        return None;
      }
      if counts[index] == 1 {
        counts[index] := 0;
        var removed := cache.Remove(index);
        return Some(true);
      } else {
        counts[index] := counts[index] - 1;
        return Some(false);
      }
    }
  }
}
