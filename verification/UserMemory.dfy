/** User memory through a page table: a flat array of bytes. */
module UserMemory {
  import opened Blocks
  import opened Options
  import opened PageTable
  import opened PageTree
  import opened Pte

  /** The physical page behind a user address. */
  ghost function UserPage(m: Mem, root: Addr, va: nat): Option<Addr> {
    if va < MAXVA && Lookup(m, root, va).Some? && CanUserAccess(Lookup(m, root, va).value)
    then Some(GetPhysicalAddr(Lookup(m, root, va).value)) else None
  }

  /** The byte that the user sees at an address. */
  ghost function ByteAt(m: Mem, root: Addr, va: nat): Option<Byte> {
    match UserPage(m, root, va)
    case None => None
    case Some(a) => if a in m.data then Some(m.data[a][va % PGSIZE]) else None
  }

  /** Every page that the user can reach through the table belongs to it. */
  ghost predicate AllOwned(m: Mem, role: Roles, root: Addr) {
    forall va :: 0 <= va < MAXVA && UserPage(m, root, va).Some? ==> Owns(m, role, root, va)
  }

  lemma {:induction false} SamePageByte(m: Mem, root: Addr, va: nat, vb: nat)
    requires va / PGSIZE == vb / PGSIZE
    ensures UserPage(m, root, va) == UserPage(m, root, vb)
  {
    hide Lookup, CanUserAccess, GetPhysicalAddr;
    LookupPage(m, root, va);
    LookupPage(m, root, vb);
  }

  lemma {:induction false} UserData(m: Mem, role: Roles, root: Addr, va: nat)
    requires Sound(m, role) && AllOwned(m, role, root) && UserPage(m, root, va).Some?
    ensures UserPage(m, root, va).value in m.data && UserPage(m, root, va).value in role
    ensures role[UserPage(m, root, va).value] == Owned(root, va / PGSIZE)
  {
    hide Lookup, CanUserAccess, GetPhysicalAddr, Valid;
    assert Owns(m, role, root, va);
    assert OwnedOk(m, role, UserPage(m, root, va).value);
  }

  /** `virtual_to_physical`. */
  method VirtualToPhysical(machine: Machine, root: Addr, va: nat) returns (r: Option<Addr>)
    requires machine.Ok() && IsRoot(machine.role, root)
    modifies machine
    ensures machine.m == old(machine.m) && machine.role == old(machine.role)
    ensures r == UserPage(machine.m, root, va)
  {
    hide Sound, Lookup, LeafTable, IsValid, CanUserAccess, GetPhysicalAddr, Index, Prefix;
    if va >= MAXVA {
      return None;
    }
    var found := machine.SearchEntry(root, va, false);
    if found.None? {
      if Lookup(machine.m, root, va).Some? {
        LookupTable(machine.m, root, va);
      }
      return None;
    }
    LookupEntry(machine.m, root, va);
    var pte := machine.m.tables[found.value][Index(0, va)];
    if !IsValid(pte) {
      return None;
    }
    if !CanUserAccess(pte) {
      return None;
    }
    return Some(GetPhysicalAddr(pte));
  }

  // ---- writing -----------------------------------------------------------------------------------------------

  function Splice(page: Page, offset: nat, bytes: seq<Byte>): Page
    requires offset + |bytes| <= PGSIZE
  {
    page[..offset] + bytes + page[offset + |bytes|..]
  }

  /** The first `n` bytes of `src` are at `dst`; every other byte that any table owns is as before. */
  ghost predicate Wrote(m: Mem, m': Mem, role: Roles, root: Addr, dst: nat, src: seq<Byte>, n: nat) {
    && n <= |src| && m'.tables == m.tables && m'.free == m.free
    && (forall va :: 0 <= va < MAXVA ==>
      ByteAt(m', root, va) == if dst <= va < dst + n then Some(src[va - dst]) else ByteAt(m, root, va))
    && (forall r, va :: r != root && 0 <= va < MAXVA && Owns(m, role, r, va) ==> ByteAt(m', r, va) == ByteAt(m, r, va))
  }

  /** The memory after `bytes`, which end in the page of `va`, have been copied to `va`. */
  ghost function Poke(m: Mem, root: Addr, va: nat, bytes: seq<Byte>): Mem
    requires va % PGSIZE + |bytes| <= PGSIZE && UserPage(m, root, va).Some? && UserPage(m, root, va).value in m.data
  {
    var a := UserPage(m, root, va).value;
    m.(data := m.data[a := Splice(m.data[a], va % PGSIZE, bytes)])
  }

  lemma {:induction false} SpliceAt(page: Page, offset: nat, bytes: seq<Byte>, i: nat)
    requires offset + |bytes| <= PGSIZE && i < PGSIZE
    ensures Splice(page, offset, bytes)[i] == if offset <= i < offset + |bytes| then bytes[i - offset] else page[i]
  {
  }

  lemma {:induction false} PokeByte(m: Mem, role: Roles, root: Addr, va: nat, bytes: seq<Byte>, r: Addr, v: nat)
    requires Sound(m, role) && AllOwned(m, role, root) && v < MAXVA && (r == root || Owns(m, role, r, v))
    requires va % PGSIZE + |bytes| <= PGSIZE && UserPage(m, root, va).Some? && UserPage(m, root, va).value in m.data
    ensures ByteAt(Poke(m, root, va, bytes), r, v)
            == if r == root && va <= v < va + |bytes| then Some(bytes[v - va]) else ByteAt(m, r, v)
  {
    hide Lookup, CanUserAccess, GetPhysicalAddr, Valid, Splice;
    var m' := Poke(m, root, va, bytes);
    SameLookup(m, m', r, v);
    UserData(m, role, root, va);
    var a := UserPage(m, root, va).value;
    if r == root && v / PGSIZE == va / PGSIZE {
      SamePageByte(m, root, v, va);
      SpliceAt(m.data[a], va % PGSIZE, bytes, v % PGSIZE);
      assert v - va == v % PGSIZE - va % PGSIZE;
    } else {
      if r == root {
        assert !(va <= v < va + |bytes|);
        if UserPage(m, root, v).Some? {
          UserData(m, role, root, v);
        }
      }
      assert UserPage(m, r, v) != Some(a);
    }
  }

  lemma {:induction false} PokeWrote(m: Mem, n: Mem, role: Roles, root: Addr, dst: nat, src: seq<Byte>, k: nat,
      bytes: seq<Byte>)
    requires Sound(n, role) && AllOwned(n, role, root) && Wrote(m, n, role, root, dst, src, k)
    requires k + |bytes| <= |src| && bytes == src[k..k + |bytes|]
    requires (dst + k) % PGSIZE + |bytes| <= PGSIZE && UserPage(n, root, dst + k).Some?
      && UserPage(n, root, dst + k).value in n.data
    ensures Wrote(m, Poke(n, root, dst + k, bytes), role, root, dst, src, k + |bytes|)
  {
    hide Sound, ByteAt, AllOwned, UserPage, Lookup, GetPhysicalAddr, Splice;
    var m' := Poke(n, root, dst + k, bytes);
    forall va | 0 <= va < MAXVA
      ensures ByteAt(m', root, va) == if dst <= va < dst + k + |bytes| then Some(src[va - dst]) else ByteAt(m, root, va)
    {
      PokeByte(n, role, root, dst + k, bytes, root, va);
    }
    forall r, va | r != root && 0 <= va < MAXVA && Owns(m, role, r, va) ensures ByteAt(m', r, va) == ByteAt(m, r, va) {
      SameLookup(m, n, r, va);
      PokeByte(n, role, root, dst + k, bytes, r, va);
    }
  }

  lemma {:induction false} PokeOwned(m: Mem, m': Mem, role: Roles, root: Addr)
    requires AllOwned(m, role, root) && m'.tables == m.tables
    ensures AllOwned(m', role, root)
  {
    hide Lookup, CanUserAccess, GetPhysicalAddr;
    forall va | 0 <= va < MAXVA && UserPage(m', root, va).Some? ensures Owns(m', role, root, va) {
      SameLookup(m, m', root, va);
      assert Owns(m, role, root, va);
    }
  }

  datatype Outcome = Done | Fault(copied: nat)

  function Min(a: nat, b: nat): nat {
    if a < b then a else b
  }

  /** `write`: puts `src` at `dst`, or as much of it as lies before the first page that the user cannot reach. */
  method Write(machine: Machine, root: Addr, dst: nat, src: seq<Byte>) returns (r: Outcome)
    requires machine.Ok() && IsRoot(machine.role, root) && AllOwned(machine.m, machine.role, root)
    modifies machine
    ensures machine.Ok() && machine.role == old(machine.role) && AllOwned(machine.m, machine.role, root)
    ensures Wrote(old(machine.m), machine.m, machine.role, root, dst, src, if r.Done? then |src| else r.copied)
    ensures r.Fault? ==> r.copied < |src| && UserPage(machine.m, root, dst + r.copied) == None
  {
    hide Sound, AllOwned, Wrote, UserPage, Splice;
    var copied, at := 0, dst;
    WroteNothing(machine.m, machine.role, root, dst, src);
    while copied < |src|
      invariant copied <= |src| && (copied < |src| ==> at == dst + copied)
      invariant machine.Ok() && machine.role == old(machine.role) && AllOwned(machine.m, machine.role, root)
      invariant Wrote(old(machine.m), machine.m, machine.role, root, dst, src, copied)
    {
      var va0 := RoundDown(at);
      var pa0 := VirtualToPhysical(machine, root, va0);
      SamePageByte(machine.m, root, va0, at);
      if pa0.None? {
        return Fault(copied);
      }
      UserData(machine.m, machine.role, root, at);
      var offset, remain := at - va0, |src| - copied;
      var bytes := Min(PGSIZE - offset, remain);
      ghost var n := machine.m;
      var chunk := src[copied..copied + bytes];
      var page := Splice(machine.m.data[pa0.value], offset, chunk);
      WriteSound(machine.m, machine.role, pa0.value, page);
      PokeWrote(old(machine.m), machine.m, machine.role, root, dst, src, copied, chunk);
      machine.m := machine.m.(data := machine.m.data[pa0.value := page]);
      PokeOwned(n, machine.m, machine.role, root);
      copied, at := copied + bytes, va0 + PGSIZE;
    }
    return Done;
  }

  lemma {:induction false} WroteNothing(m: Mem, role: Roles, root: Addr, dst: nat, src: seq<Byte>)
    ensures Wrote(m, m, role, root, dst, src, 0)
  {
    hide ByteAt;
  }

  // ---- reading -----------------------------------------------------------------------------------------------

  /** The first `n` bytes of `dst` are those that the user sees from `src` on. */
  ghost predicate Reads(m: Mem, root: Addr, src: nat, dst: seq<Byte>, n: nat) {
    n <= |dst| && forall va :: src <= va < src + n ==> ByteAt(m, root, va) == Some(dst[va - src])
  }

  /** The bytes of one page, at `at` and behind it. */
  lemma {:induction false} PageBytes(m: Mem, role: Roles, root: Addr, at: nat, i: nat)
    requires Sound(m, role) && AllOwned(m, role, root) && UserPage(m, root, at).Some? && at % PGSIZE + i < PGSIZE
    ensures var a := UserPage(m, root, at).value;
      a in m.data && ByteAt(m, root, at + i) == Some(m.data[a][at % PGSIZE + i])
  {
    hide Sound, AllOwned, UserPage;
    UserData(m, role, root, at);
    InSamePage(at, i);
    SamePageByte(m, root, at, at + i);
  }

  lemma {:induction false} InSamePage(at: nat, i: nat)
    requires at % PGSIZE + i < PGSIZE
    ensures (at + i) / PGSIZE == at / PGSIZE && (at + i) % PGSIZE == at % PGSIZE + i
  {
  }

  /** `read`: takes the bytes from `src` on, as far as the user can reach them. */
  method Read(machine: Machine, root: Addr, dst: array<Byte>, src: nat) returns (r: Outcome)
    requires machine.Ok() && IsRoot(machine.role, root) && AllOwned(machine.m, machine.role, root)
    modifies machine, dst
    ensures machine.m == old(machine.m) && machine.role == old(machine.role)
    ensures Reads(machine.m, root, src, dst[..], if r.Done? then dst.Length else r.copied)
    ensures r.Fault? ==> r.copied < dst.Length && UserPage(machine.m, root, src + r.copied) == None
  {
    hide Sound, AllOwned, UserPage, ByteAt;
    var copied, at := 0, src;
    while copied < dst.Length
      invariant copied <= dst.Length && (copied < dst.Length ==> at == src + copied)
      invariant machine.m == old(machine.m) && machine.role == old(machine.role)
      invariant Reads(machine.m, root, src, dst[..], copied)
    {
      var va0 := RoundDown(at);
      var pa0 := VirtualToPhysical(machine, root, va0);
      SamePageByte(machine.m, root, va0, at);
      if pa0.None? {
        return Fault(copied);
      }
      UserData(machine.m, machine.role, root, at);
      var offset, remain := at - va0, dst.Length - copied;
      var bytes := Min(PGSIZE - offset, remain);
      CopyOut(machine.m.data[pa0.value], offset, dst, copied, bytes);
      forall va | at <= va < at + bytes ensures ByteAt(machine.m, root, va) == Some(dst[va - src]) {
        PageBytes(machine.m, machine.role, root, at, va - at);
      }
      copied, at := copied + bytes, va0 + PGSIZE;
    }
    return Done;
  }

  method CopyOut(page: Page, offset: nat, dst: array<Byte>, at: nat, n: nat)
    requires offset + n <= PGSIZE && at + n <= dst.Length
    modifies dst
    ensures forall i :: 0 <= i < dst.Length ==>
      dst[i] == if at <= i < at + n then page[offset + (i - at)] else old(dst[i])
  {
    forall i | 0 <= i < n {
      dst[at + i] := page[offset + i];
    }
  }

  /** A string of `n` bytes and its NUL, all of them reachable. */
  ghost predicate IsString(m: Mem, root: Addr, src: nat, n: nat) {
    && ByteAt(m, root, src + n) == Some(0)
    && forall va :: src <= va < src + n ==> ByteAt(m, root, va).Some? && ByteAt(m, root, va) != Some(0)
  }

  /** `read_cstr`: succeeds exactly if a string that fits lies at `src`, and then has copied it. */
  method ReadCstr(machine: Machine, root: Addr, dst: array<Byte>, src: nat) returns (r: Option<nat>)
    requires machine.Ok() && IsRoot(machine.role, root) && AllOwned(machine.m, machine.role, root)
    modifies machine, dst
    ensures machine.m == old(machine.m) && machine.role == old(machine.role)
    ensures r.Some? ==>
      r.value < dst.Length && IsString(machine.m, root, src, r.value)
          && Reads(machine.m, root, src, dst[..], r.value + 1)
    ensures r.None? ==> forall n :: 0 <= n < dst.Length ==> !IsString(machine.m, root, src, n)
  {
    hide Sound, AllOwned, UserPage, ByteAt;
    var read, at := 0, src;
    while read < dst.Length
      invariant read <= dst.Length && (read < dst.Length ==> at == src + read)
      invariant machine.m == old(machine.m) && machine.role == old(machine.role)
      invariant Reads(machine.m, root, src, dst[..], read) && forall i :: 0 <= i < read ==> dst[i] != 0
    {
      var va0 := RoundDown(at);
      var pa0 := VirtualToPhysical(machine, root, va0);
      SamePageByte(machine.m, root, va0, at);
      if pa0.None? {
        NoString(machine.m, root, src, dst[..], read);
        return None;
      }
      UserData(machine.m, machine.role, root, at);
      var offset := at - va0;
      var n := Min(PGSIZE - offset, dst.Length - read);
      var page := machine.m.data[pa0.value];
      for i := 0 to n
        invariant machine.m == old(machine.m) && machine.role == old(machine.role)
        invariant Reads(machine.m, root, src, dst[..], read + i) && forall j :: 0 <= j < read + i ==> dst[j] != 0
      {
        PageBytes(machine.m, machine.role, root, at, i);
        var c := page[offset + i];
        dst[read + i] := c;
        if c == 0 {
          FoundString(machine.m, root, src, dst[..], read + i);
          return Some(read + i);
        }
      }
      read, at := read + n, va0 + PGSIZE;
    }
    TooLong(machine.m, root, src, dst[..]);
    return None;
  }

  lemma {:induction false} FoundString(m: Mem, root: Addr, src: nat, dst: seq<Byte>, n: nat)
    requires Reads(m, root, src, dst, n + 1) && dst[n] == 0 && forall i :: 0 <= i < n ==> dst[i] != 0
    ensures IsString(m, root, src, n)
  {
    hide ByteAt;
  }

  lemma {:induction false} NoString(m: Mem, root: Addr, src: nat, dst: seq<Byte>, k: nat)
    requires Reads(m, root, src, dst, k) && (forall i :: 0 <= i < k ==> dst[i] != 0)
      && UserPage(m, root, src + k) == None
    ensures forall n :: 0 <= n < |dst| ==> !IsString(m, root, src, n)
  {
    hide UserPage;
    assert ByteAt(m, root, src + k) == None;
  }

  lemma {:induction false} TooLong(m: Mem, root: Addr, src: nat, dst: seq<Byte>)
    requires Reads(m, root, src, dst, |dst|) && forall i :: 0 <= i < |dst| ==> dst[i] != 0
    ensures forall n :: 0 <= n < |dst| ==> !IsString(m, root, src, n)
  {
    hide ByteAt;
  }

  // ---- what user programs may rely on ------------------------------------------------------------------------

  /** What has been written is what is read, whatever pages the range crosses. */
  lemma {:induction false} WriteThenRead(m: Mem, m': Mem, role: Roles, root: Addr, dst: nat, src: seq<Byte>,
      bytes: seq<Byte>)
    requires Wrote(m, m', role, root, dst, src, |src|) && |bytes| == |src| && dst + |src| <= MAXVA
      && Reads(m', root, dst, bytes, |src|)
    ensures bytes == src
  {
    hide ByteAt;
    forall i | 0 <= i < |src| ensures bytes[i] == src[i] {
      assert ByteAt(m', root, dst + i) == Some(bytes[i]);
    }
  }

  /** After a successful `copy`, a write through either table leaves what the other one reads in the copied range. */
  lemma {:induction false} CopyIsolates(was: Mem, m: Mem, m': Mem, role: Roles, from: Addr, to: Addr, n: nat, dst: nat,
      src: seq<Byte>, k: nat, va: nat)
    requires AllCopied(was, m, role, from, to, n) && from != to && va < n * PGSIZE && va < MAXVA
    requires Wrote(m, m', role, from, dst, src, k)
    ensures ByteAt(m', to, va) == ByteAt(m, to, va)
  {
    hide ByteAt, Lookup, GetPhysicalAddr, Content, GetFlags, IsValid, Leaf;
    assert CopiedAt(was, m, role, from, to, va / PGSIZE);
    LookupPage(m, to, va);
    assert va / PGSIZE * PGSIZE / PGSIZE == va / PGSIZE;
    assert Owns(m, role, to, va);
  }

  lemma {:induction false} CopyIsolatesSource(was: Mem, m: Mem, m': Mem, roleWas: Roles, role: Roles, from: Addr,
      to: Addr, n: nat, dst: nat, src: seq<Byte>, k: nat, va: nat)
    requires Added(was, m, roleWas, role, to, 0, n) && from != to && va < MAXVA && IsRoot(roleWas, from)
      && Owns(was, roleWas, from, va)
    requires Wrote(m, m', role, to, dst, src, k)
    ensures ByteAt(m', from, va) == ByteAt(m, from, va)
  {
    hide ByteAt, Lookup, GetPhysicalAddr;
    assert Lookup(m, from, va) == Lookup(was, from, va);
    assert Owns(m, role, from, va);
  }

  /** No two user addresses, of the same table or of different ones, are the same byte of physical memory. */
  lemma {:induction false} NoSharedByte(m: Mem, role: Roles, r: Addr, va: nat, s: Addr, vb: nat)
    requires AllOwned(m, role, r) && AllOwned(m, role, s) && UserPage(m, r, va).Some?
    requires UserPage(m, r, va) == UserPage(m, s, vb) && va % PGSIZE == vb % PGSIZE
    ensures r == s && va == vb
  {
    hide Lookup, GetPhysicalAddr, CanUserAccess;
    assert Owns(m, role, r, va) && Owns(m, role, s, vb);
    assert va == va / PGSIZE * PGSIZE + va % PGSIZE && vb == vb / PGSIZE * PGSIZE + vb % PGSIZE;
  }

  /** Adding pages of their own to one table, as `grow` and `copy` do, leaves every page that users can reach, through
      that table or another one, with one owner. */
  lemma {:induction false} AddedAllOwned(m: Mem, m': Mem, role: Roles, role': Roles, root: Addr, start: nat, k: nat,
      r: Addr)
    requires Sound(m, role) && Added(m, m', role, role', root, start, k) && start % PGSIZE == 0
    requires forall j :: 0 <= j < k ==> Owns(m', role', root, start + j * PGSIZE)
    requires IsRoot(role, r) && AllOwned(m, role, r)
    ensures AllOwned(m', role', r)
  {
    hide Sound, Lookup, GetPhysicalAddr, CanUserAccess;
    forall va | 0 <= va < MAXVA && UserPage(m', r, va).Some? ensures Owns(m', role', r, va) {
      if r == root && start <= va < start + k * PGSIZE {
        var j := (va - start) / PGSIZE;
        assert Owns(m', role', root, start + j * PGSIZE);
        OwnsPage(m', role', root, start + j * PGSIZE, va);
      } else {
        assert Owns(m, role, r, va);
      }
    }
  }

  lemma {:induction false} OwnsPage(m: Mem, role: Roles, root: Addr, va: nat, vb: nat)
    requires Owns(m, role, root, va) && va / PGSIZE == vb / PGSIZE
    ensures Owns(m, role, root, vb)
  {
    LookupPage(m, root, va);
    LookupPage(m, root, vb);
  }
}
