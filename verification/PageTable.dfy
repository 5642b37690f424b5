/** `PageTable`: its operations on physical memory, against the translation of every address through every table. */
module PageTable {
  import opened Options
  import opened PageDrop
  import opened PageTree
  import opened Pte

  ghost predicate MapsNothing(m: Mem, root: Addr) {
    forall va :: 0 <= va < MAXVA ==> Lookup(m, root, va) == None
  }

  /** Free pages may have become tables; every other page is what it was. */
  ghost predicate Spare(role: Roles, role': Roles) {
    && role'.Keys == role.Keys
    && forall a :: a in role ==>
      if role[a].Free? then role'[a].Free? || (role'[a].Node? && role'[a].level < 2) else role'[a] == role[a]
  }

  lemma {:induction false} SpareRoots(role: Roles, role': Roles)
    requires Spare(role, role')
    ensures forall root :: IsRoot(role, root) <==> IsRoot(role', root)
  {
  }

  lemma {:induction false} SpareTrans(r: Roles, s: Roles, t: Roles)
    requires Spare(r, s) && Spare(s, t)
    ensures Spare(r, t)
  {
  }

  class Machine {
    var m: Mem
    /** What each page of the allocator is used for. */
    ghost var role: Roles

    ghost predicate Ok()
      reads this
    {
      Sound(m, role)
    }

    constructor (m: Mem, ghost role: Roles)
      requires Sound(m, role)
      ensures Ok() && this.m == m && this.role == role
    {
      this.m := m;
      this.role := role;
    }

    method Allocate() returns (r: Option<Addr>)
      requires Ok()
      modifies this
      ensures Ok() && m.tables == old(m.tables) && m.data == old(m.data)
      ensures r.None? <==> old(m.free) == []
      ensures r.None? ==> m.free == old(m.free) && role == old(role)
      ensures r.Some? ==>
        && old(m.free) == m.free + [r.value] && IsPage(r.value)
        && r.value in old(role) && old(role)[r.value].Free? && role == old(role)[r.value := Lent]
    {
      hide Valid, IsPage;
      if m.free == [] {
        return None;
      }
      PopValid(m, role);
      var a := m.free[|m.free| - 1];
      PageOf(m, role, a);
      m := m.(free := m.free[..|m.free| - 1]);
      role := role[a := Lent];
      SameTables(old(m), m, old(role));
      SoundFrame(old(m), old(role), m, role);
      return Some(a);
    }

    method Deallocate(a: Addr)
      requires Ok() && a in role && role[a] == Lent
      modifies this
      ensures Ok() && m == old(m).(free := old(m.free) + [a]) && role == old(role)[a := Free(|old(m.free)|)]
    {
      hide Valid;
      PushValid(m, role, a);
      role := role[a := Free(|m.free|)];
      m := m.(free := m.free + [a]);
      SameTables(old(m), m, old(role));
      SoundFrame(old(m), old(role), m, role);
    }

    /** `PageTable::allocate_in`. */
    method AllocateRoot() returns (r: Option<Addr>)
      requires Ok()
      modifies this
      ensures Ok() && m.data == old(m.data)
      ensures r.None? <==> old(m.free) == []
      ensures r.None? ==> m == old(m) && role == old(role)
      ensures r.Some? ==>
        && IsRoot(role, r.value) && r.value in old(role) && old(role)[r.value].Free?
        && role == old(role)[r.value := Node(r.value, 2, 0, r.value, 0)]
        && MapsNothing(m, r.value)
        && SameMaps(old(m), m, old(role))
    {
      hide Valid, IsPage;
      r := Allocate();
      if r.Some? {
        ghost var n, before := m, role;
        AddRootValid(m, role, r.value);
        RootMaps(m, role, r.value);
        RootMaps(old(m), old(role), r.value);
        m := m.(tables := m.tables[r.value := EmptyTable()]);
        role := role[r.value := Node(r.value, 2, 0, r.value, 0)];
        SameMapsAs(old(m), n, m, old(role));
        SoundFrame(n, before, m, role);
      }
    }

    /** One level of `search_entry`. */
    method Step(table: Addr, level: nat, va: nat, alloc: bool) returns (r: Option<Addr>)
      requires Ok() && va < MAXVA && 0 < level <= 2 && table in role && role[table].Node? && role[table].level == level
      modifies this
      ensures Ok() && Spare(old(role), role) && m.data == old(m.data) && SameMaps(old(m), m, old(role))
      ensures !alloc ==> m == old(m) && role == old(role) && r == Down(m, table, Index(level, va))
      ensures alloc && r.None? ==> m.free == []
      ensures r.Some? ==>
        && Down(m, table, Index(level, va)) == r && IsNode(m, role, table, role[table].root, level, role[table].prefix)
        && IsNode(m, role, r.value, role[table].root, level - 1, role[table].prefix * 512 + Index(level, va))
    {
      hide Valid, IsPage, IsValid, GetPhysicalAddr, Index, Branch;
      NodeFacts(m, role, table);
      var i := Index(level, va);
      var e := m.tables[table][i];
      if IsValid(e) {
        DownIsNode(m, role, table, role[table].root, level - 1, role[table].prefix, i);
        return Some(GetPhysicalAddr(e));
      }
      if !alloc {
        return None;
      }
      var page := Allocate();
      if page.None? {
        return None;
      }
      ghost var n, before := m, role;
      var a := page.value;
      SameEntries(old(m), m);
      AddTableValid(m, role, table, i, a);
      forall root, v | IsRoot(role, root) && 0 <= v < MAXVA
        ensures Lookup(AddTable(m, table, i, a), root, v) == Lookup(m, root, v)
      {
        AddTableLookup(m, role, table, i, a, root, v);
      }
      AddTableAt(m, table, i, a, table, i);
      BranchFields(a);
      role := role[a := NodeBelow(role, table, i)];
      m := AddTable(m, table, i, a);
      SoundFrame(n, before, m, role);
      SameMapsAs(old(m), n, m, old(role));
      NodeFacts(m, role, table);
      NodeFacts(m, role, a);
      return Some(a);
    }

    /** `search_entry`: where the leaf entry for `va` is.  With `alloc` it builds the missing tables, which changes no
        translation, and fails only when no page is left; without, it fails if a table is missing. */
    method SearchEntry(root: Addr, va: nat, alloc: bool) returns (r: Option<Addr>)
      requires Ok() && IsRoot(role, root) && va < MAXVA
      modifies this
      ensures Ok() && Spare(old(role), role) && m.data == old(m.data) && SameMaps(old(m), m, old(role))
      ensures !alloc ==> m == old(m) && role == old(role) && (r.None? <==> LeafTable(m, root, va).None?)
      ensures alloc && r.None? ==> m.free == []
      ensures r.Some? ==> LeafTable(m, root, va) == r && IsNode(m, role, r.value, root, 0, Prefix(0, va))
    {
      hide Valid, Index, Prefix, Down, Lookup;
      PrefixSteps(va);
      PrefixTop(va);
      RootIsNode(m, role, root);
      var table, level := root, 2;
      while level > 0
        invariant level <= 2 && Ok() && Spare(old(role), role) && m.data == old(m.data)
          && SameMaps(old(m), m, old(role))
        invariant IsRoot(role, root) && IsNode(m, role, table, root, level, Prefix(level, va))
        invariant !alloc ==> m == old(m) && role == old(role)
        invariant level == 2 ==> table == root
        invariant level == 1 ==> Down(m, root, Index(2, va)) == Some(table)
        decreases level
      {
        var next := Step(table, level, va, alloc);
        SpareRoots(old(role), role);
        if next.None? {
          return None;
        }
        table, level := next.value, level - 1;
      }
      Reach(m, role, table, root, va);
      return Some(table);
    }

    /** One turn of the loop of `map`. */
    method MapPage(root: Addr, va: nat, pa: Addr, flags: bv64) returns (ok: bool)
      requires Ok() && IsRoot(role, root) && va < MAXVA && AreFlags(flags) && Lookup(m, root, va) == None
      modifies this
      ensures Ok() && Spare(old(role), role) && m.data == old(m.data)
      ensures !ok ==> m.free == [] && SameMaps(old(m), m, old(role))
      ensures ok ==> PageMapped(old(m), m, old(role), root, va, Some(Leaf(pa, flags)))
    {
      hide Valid, Index, Prefix, Down, Lookup, Leaf, AreFlags, LeafTable;
      var found := SearchEntry(root, va, true);
      SpareRoots(old(role), role);
      if found.None? {
        return false;
      }
      var t, i := found.value, Index(0, va);
      ghost var before := m;
      LookupEntry(m, root, va);
      SetLeafValid(m, role, t, i, Leaf(pa, flags));
      m := SetEntry(m, t, i, Leaf(pa, flags));
      LeafIsValid(pa, flags);
      LeafMapped(before, role, root, va, t, Leaf(pa, flags));
      NewMapSound(before, m, role, root, va, Leaf(pa, flags));
      forall r, v | IsRoot(old(role), r) && 0 <= v < MAXVA
        ensures Lookup(m, r, v) ==
          if r == root && v / PGSIZE == va / PGSIZE then Some(Leaf(pa, flags)) else Lookup(old(m), r, v)
      {
        assert IsRoot(role, r);
      }
      return true;
    }

    /** `map`, of pages that are not mapped: as many pages as `size` bytes fill, from the page of `va` on.  It fails
        only when no page is left for a table, and has then mapped the first `done` pages. */
    method Map(root: Addr, va: nat, pa: Addr, size: nat, flags: bv64) returns (ok: bool, ghost done: nat)
      requires Ok() && IsRoot(role, root) && AreFlags(flags)
      requires size > 0 && RoundDown(va) + size <= MAXVA
      requires forall v :: RoundDown(va) <= v < RoundDown(va) + Pages(size) * PGSIZE ==> Lookup(m, root, v) == None
      modifies this
      ensures Ok() && Spare(old(role), role) && m.data == old(m.data)
      ensures RangeMapped(old(m), m, old(role), root, RoundDown(va), done, pa, flags)
      ensures if ok then done == Pages(size) else done < Pages(size) && m.free == []
    {
      hide Sound, Lookup, Leaf, AreFlags, Spare, RangeMapped, SameMaps, PageMapped;
      var at, page := RoundDown(va), pa;
      ghost var first := at;
      var last := RoundDown(at + size - 1);
      done := 0;
      RangeStart(m, role, root, first, pa, flags);
      SpareRefl(role);
      while true
        invariant Ok() && Spare(old(role), role) && m.data == old(m.data) && IsRoot(role, root)
        invariant at == first + done * PGSIZE && at <= last && page == Nth(pa, done) && done < Pages(size)
        invariant RangeMapped(old(m), m, old(role), root, first, done, pa, flags)
        decreases last - at
      {
        ghost var n, before := m, role;
        RangeNext(old(m), m, old(role), root, first, done, pa, flags);
        ok := MapPage(root, at, page, flags);
        SpareTrans(old(role), before, role);
        SpareRoots(old(role), before);
        SpareRoots(before, role);
        if !ok {
          RangeSame(old(m), n, m, old(role), before, root, first, done, pa, flags);
          return;
        }
        RangeStep(old(m), n, m, old(role), before, root, first, done, pa, flags);
        done := done + 1;
        if at == last {
          break;
        }
        at, page := at + PGSIZE, Addr(page.bits + 0x1000);
      }
    }

    /** One turn of the loop of `unmap`.  False stands for the panic of an `unwrap` or an assertion. */
    method UnmapPage(root: Addr, va: nat, free: bool) returns (ok: bool)
      requires Ok() && IsRoot(role, root) && Proper(m, role, root, va, free)
      modifies this
      ensures Ok() && m.data == old(m.data) && IsRoot(role, root)
      ensures ok <==> Present(old(m), root, va)
      ensures !ok ==> m == old(m) && role == old(role)
      ensures ok ==> PageMapped(old(m), m, old(role), root, va, None)
      ensures ok ==> Released(old(role), role, root, va / PGSIZE, 1, free)
    {
      hide Valid, Index, Prefix, Down, Lookup, LeafTable, IsValid, GetPhysicalAddr, GetFlags;
      if va >= MAXVA {
        return false;
      }
      var found := SearchEntry(root, va, false);
      if found.None? {
        assert Lookup(m, root, va).None? by { NoTable(m, root, va); }
        return false;
      }
      var t, i := found.value, Index(0, va);
      LookupEntry(m, root, va);
      var pte := m.tables[t][i];
      if !IsValid(pte) || GetFlags(pte) == V {
        return false;
      }
      if free {
        var a := GetPhysicalAddr(pte);
        OwnValid(m, role, a, Lent);
        role := role[a := Lent];
        SameTables(old(m), m, old(role));
        SoundFrame(old(m), old(role), m, role);
        Deallocate(a);
      }
      ghost var n := m;
      assert n.tables == old(m.tables);
      SetLeafValid(m, role, t, i, Invalid());
      m := SetEntry(m, t, i, Invalid());
      InvalidEntry();
      SameTables(old(m), n, old(role));
      NodeStays(old(m), n, old(role), role, t, root, Prefix(0, va));
      LeafMapped(n, role, root, va, t, Invalid());
      PageMappedAs(old(m), n, m, old(role), role, root, va);
      UnmapSound(n, m, role, root, va);
      return true;
    }

    /** `unmap`: removes exactly the given pages, and frees them if they are owned.  Its `unwrap` and its assertions all
        pass exactly if `va` is page-aligned and every page has an entry that is a mapping; false stands for the panic,
        after the first `done` pages. */
    method Unmap(root: Addr, va: nat, npages: nat, free: bool) returns (ok: bool, ghost done: nat)
      requires Ok() && IsRoot(role, root)
      requires forall k :: 0 <= k < npages ==> Proper(m, role, root, va + k * PGSIZE, free)
      modifies this
      ensures Ok() && m.data == old(m.data) && IsRoot(role, root)
      ensures ok <==> va % PGSIZE == 0 && forall k :: 0 <= k < npages ==> Present(old(m), root, va + k * PGSIZE)
      ensures if ok then done == npages else va % PGSIZE == 0 ==>
        done < npages && !Present(old(m), root, va + done * PGSIZE)
      ensures RangeUnmapped(old(m), m, old(role), root, va, done)
      ensures Released(old(role), role, root, va / PGSIZE, done, free)
    {
      hide Sound, Lookup, Proper, Present;
      UnmappedStart(m, role, root, va, free);
      if va % PGSIZE != 0 {
        return false, 0;
      }
      for k := 0 to npages
        invariant Ok() && m.data == old(m.data) && IsRoot(role, root)
        invariant RangeUnmapped(old(m), m, old(role), root, va, k)
        invariant Released(old(role), role, root, va / PGSIZE, k, free)
        invariant forall j :: 0 <= j < k ==> Present(old(m), root, va + j * PGSIZE)
      {
        ghost var n, before := m, role;
        StillThere(old(m), m, old(role), role, root, va, k, free);
        ok := UnmapPage(root, va + k * PGSIZE, free);
        if !ok {
          return false, k;
        }
        UnmappedStep(old(m), n, m, old(role), before, root, va, k);
        ReleasedStep(old(role), before, role, root, va, k, free);
      }
      return true, npages;
    }

    /** A turn of the loops of `grow` and `copy`: a fresh page with the given contents, mapped and owned at `va`.  If
        the page or a table for it cannot be had, nothing stays allocated but tables. */
    method AddPage(root: Addr, va: nat, flags: bv64, content: Page) returns (ok: bool)
      requires Ok() && IsRoot(role, root) && va % PGSIZE == 0 && va < MAXVA && AreFlags(flags)
      requires Lookup(m, root, va) == None
      modifies this
      ensures Ok() && IsRoot(role, root) && DataKept(old(m), m, old(role))
      ensures !ok ==> SameMaps(old(m), m, old(role)) && Spare(old(role), role)
      ensures ok ==>
        && Fresh(m, role, root, va, flags) && Content(m, root, va) == content
        && Elsewhere(old(m), m, old(role), root, va) && TakenFor(old(role), role, root, va / PGSIZE, 1)
    {
      hide Sound, Index, Prefix, Lookup, Leaf, AreFlags, GetPhysicalAddr, IsPage, Spare;
      var mem := Allocate();
      if mem.None? {
        SameTables(old(m), m, old(role));
        SpareRefl(role);
        return false;
      }
      var a := mem.value;
      WriteSound(m, role, a, content);
      m := m.(data := m.data[a := content]);
      ghost var n, before := m, role;
      SameTables(old(m), m, old(role));
      SameTables(old(m), m, role);
      LookupBelow(m, root, va);
      ghost var done;
      ok, done := Map(root, va, a, PGSIZE, flags);
      assert role[a] == Lent by { SpareLent(before, role, a); }
      SpareRoots(before, role);
      if !ok {
        RangeNone(n, m, before, root, va, a, flags);
        ghost var mid := m;
        Deallocate(a);
        SameMapsVia(old(m), n, mid, m, old(role), before);
        SpareLoan(old(role), before, role, a);
        return false;
      }
      RangeOne(n, m, before, root, va, a, flags);
      LeafFields(a, flags);
      OwnSound(m, role, root, va, a, flags);
      ghost var lent := role;
      role := role[a := Owned(root, va / PGSIZE)];
      TakenOne(old(role), before, lent, role, root, va, a);
    }

    /** `shrink`: removes and frees the whole pages above the new size.  None stands for the panic of `unmap`: it comes
        exactly if one of these pages is not there, as when `oldSize` is larger than the process. */
    method Shrink(root: Addr, oldSize: nat, newSize: nat) returns (r: Option<nat>, ghost done: nat)
      requires Ok() && IsRoot(role, root)
      requires forall k :: 0 <= k < Excess(oldSize, newSize) ==>
        Proper(m, role, root, RoundUp(newSize) + k * PGSIZE, true)
      modifies this
      ensures Ok() && IsRoot(role, root) && m.data == old(m.data)
      ensures r.Some? <==>
        forall k :: 0 <= k < Excess(oldSize, newSize) ==> Present(old(m), root, RoundUp(newSize) + k * PGSIZE)
      ensures r.Some? ==>
        r.value == (if newSize < oldSize then newSize else oldSize) && done == Excess(oldSize, newSize)
      ensures RangeUnmapped(old(m), m, old(role), root, RoundUp(newSize), done)
      ensures Released(old(role), role, root, RoundUp(newSize) / PGSIZE, done, true)
    {
      hide Sound, Lookup, Proper, Present;
      UnmappedStart(m, role, root, RoundUp(newSize), true);
      if newSize >= oldSize {
        return Some(oldSize), 0;
      }
      var start, end := RoundUp(newSize), RoundUp(oldSize);
      done := 0;
      if start != end {
        var ok;
        ok, done := Unmap(root, start, (end - start) / PGSIZE, true);
        if !ok {
          return None, done;
        }
      }
      return Some(newSize), done;
    }

    /** The way out of a `grow` that has added `k` pages. */
    method GiveUp(root: Addr, oldSize: nat, a: nat, ghost was: Mem, ghost roleWas: Roles, ghost k: nat)
      requires Ok() && IsRoot(role, root) && a == RoundUp(oldSize) + k * PGSIZE <= MAXVA && Sound(was, roleWas)
      requires Added(was, m, roleWas, role, root, RoundUp(oldSize), k)
      requires forall v :: RoundUp(oldSize) <= v < a ==> Lookup(was, root, v) == None
      requires forall j :: 0 <= j < k ==> CanUnmap(m, role, root, RoundUp(oldSize) + j * PGSIZE, true)
      modifies this
      ensures Ok() && IsRoot(role, root)
      ensures SameMaps(was, m, roleWas) && Spare(roleWas, role) && DataKept(was, m, roleWas)
    {
      hide Sound, Lookup, CanUnmap, Spare, Added, DataKept, SameMaps;
      assert RoundUp(a) == a && (RoundUp(a) - RoundUp(oldSize)) / PGSIZE == k;
      assert Excess(a, oldSize) == k;
      AllProper(m, role, root, RoundUp(oldSize), k);
      ghost var done;
      var r;
      r, done := Shrink(root, a, oldSize);
      Undone(was, old(m), m, roleWas, old(role), role, root, RoundUp(oldSize), k);
    }

    /** `grow` is all or nothing: either every new page is mapped to a fresh zeroed page of its own, or no translation
        has changed and no page but those of new tables has left the free list. */
    method Grow(root: Addr, oldSize: nat, newSize: nat, perm: bv64) returns (r: Option<nat>)
      requires Ok() && IsRoot(role, root) && newSize <= MAXVA && AreFlags(perm | R | U)
      requires forall v :: RoundUp(oldSize) <= v < RoundUp(newSize) ==> Lookup(m, root, v) == None
      modifies this
      ensures Ok() && IsRoot(role, root)
      ensures newSize < oldSize ==> r == Some(oldSize) && m == old(m) && role == old(role)
      ensures newSize >= oldSize && r.Some? ==>
        && r.value == newSize
        && Added(old(m), m, old(role), role, root, RoundUp(oldSize), Span(oldSize, newSize))
        && AllGrown(m, role, root, RoundUp(oldSize), Span(oldSize, newSize), perm | R | U)
      ensures newSize >= oldSize && r.None? ==>
        SameMaps(old(m), m, old(role)) && Spare(old(role), role) && DataKept(old(m), m, old(role))
    {
      hide Sound, Lookup, CanUnmap, AreFlags, Spare, Added, Fresh, Content, Elsewhere, TakenFor, DataKept, SameMaps,
        AllGrown;
      if newSize < oldSize {
        return Some(oldSize);
      }
      var start, flags := RoundUp(oldSize), perm | R | U;
      var a := start;
      ghost var k := 0;
      AddedStart(m, role, root, start);
      AllGrownStart(m, role, root, start, flags);
      while a < newSize
        invariant Ok() && IsRoot(role, root) && a == start + k * PGSIZE && k <= Span(oldSize, newSize)
        invariant a < newSize + PGSIZE
        invariant Added(old(m), m, old(role), role, root, start, k)
        invariant AllGrown(m, role, root, start, k, flags)
        decreases newSize - a
      {
        ghost var n, before := m, role;
        NotYet(old(m), m, old(role), role, root, start, k);
        var ok := AddPage(root, a, flags, ZeroPage());
        if !ok {
          Failed(old(m), n, m, old(role), before, role, root, start, k);
          UserFlags(perm);
          AllGrownUnmaps(n, m, before, role, root, start, k, flags);
          GiveUp(root, oldSize, a, old(m), old(role), k);
          return None;
        }
        AddedStep(old(m), n, m, old(role), before, role, root, start, k);
        AllGrownStep(n, m, before, role, root, start, k, flags);
        a, k := a + PGSIZE, k + 1;
      }
      return Some(newSize);
    }

    /** The page and the flags that a turn of the loop of `copy` takes over. */
    method ReadSource(from: Addr, va: nat) returns (flags: bv64, content: Page)
      requires Ok() && IsRoot(role, from) && va < MAXVA && Readable(m, role, from, va)
      modifies this
      ensures m == old(m) && role == old(role)
      ensures flags == GetFlags(Lookup(m, from, va).value) && content == Content(m, from, va)
      ensures AreFlags(flags) && flags | V != V
    {
      hide Sound, Lookup, LeafTable, IsValid, GetPhysicalAddr, GetFlags, Index, Prefix;
      var found := SearchEntry(from, va, false);
      LookupTable(m, from, va);
      LookupEntry(m, from, va);
      var pte := m.tables[found.value][Index(0, va)];
      LookupValid(m, from, va);
      CopiedFlags(pte);
      flags, content := GetFlags(pte), m.data[GetPhysicalAddr(pte)];
    }

    /** The way out of a `copy` that has added `k` pages. */
    method Unwind(to: Addr, npages: nat, ghost was: Mem, ghost roleWas: Roles)
      requires Ok() && IsRoot(role, to) && npages * PGSIZE <= MAXVA && Sound(was, roleWas)
      requires Added(was, m, roleWas, role, to, 0, npages)
      requires forall v :: 0 <= v < npages * PGSIZE ==> Lookup(was, to, v) == None
      requires forall j :: 0 <= j < npages ==> CanUnmap(m, role, to, 0 + j * PGSIZE, true)
      modifies this
      ensures Ok() && IsRoot(role, to)
      ensures SameMaps(was, m, roleWas) && Spare(roleWas, role) && DataKept(was, m, roleWas)
    {
      hide Sound, Lookup, CanUnmap, Spare, Added, DataKept, SameMaps;
      AllProper(m, role, to, 0, npages);
      ghost var done;
      var ok;
      ok, done := Unmap(to, 0, npages, true);
      Undone(was, old(m), m, roleWas, old(role), role, to, 0, npages);
    }

    /** `copy` is all or nothing: either every page has a copy of its own with the same flags in `to`, or no translation
        has changed and no page but those of new tables has left the free list.  Whose the pages of `from` are does not
        matter. */
    method Copy(from: Addr, to: Addr, size: nat) returns (ok: bool)
      requires Ok() && IsRoot(role, from) && IsRoot(role, to) && from != to && size <= MAXVA
      requires forall k :: 0 <= k < Pages(size) ==> Readable(m, role, from, k * PGSIZE)
      requires forall v :: 0 <= v < Pages(size) * PGSIZE ==> Lookup(m, to, v) == None
      modifies this
      ensures Ok() && IsRoot(role, from) && IsRoot(role, to)
      ensures ok ==>
        && Added(old(m), m, old(role), role, to, 0, Pages(size))
        && AllCopied(old(m), m, role, from, to, Pages(size))
      ensures !ok ==> SameMaps(old(m), m, old(role)) && Spare(old(role), role) && DataKept(old(m), m, old(role))
    {
      hide Sound, Lookup, Readable, AreFlags, Spare, Added, Fresh, Content, Elsewhere, TakenFor, DataKept, SameMaps,
        AllCopied;
      ghost var k := 0;
      var i := 0;
      AddedStart(m, role, to, 0);
      AllCopiedStart(m, role, from, to);
      while i < size
        invariant Ok() && IsRoot(role, from) && IsRoot(role, to) && i == k * PGSIZE && k <= Pages(size)
          && i < size + PGSIZE
        invariant Added(old(m), m, old(role), role, to, 0, k)
        invariant AllCopied(old(m), m, role, from, to, k)
        decreases size - i
      {
        ghost var n, before := m, role;
        SourceStays(old(m), m, old(role), role, from, to, k);
        var flags, content := ReadSource(from, i);
        NotYet(old(m), m, old(role), role, to, 0, k);
        ok := AddPage(to, i, flags, content);
        if !ok {
          Failed(old(m), n, m, old(role), before, role, to, 0, k);
          AllCopiedUnmaps(old(m), n, m, before, role, from, to, k);
          RootsStay(before, role, from);
          Unwind(to, i / PGSIZE, old(m), old(role));
          RootsStay(old(role), role, from);
          return;
        }
        TakenRoots(before, role, to, i / PGSIZE, 1);
        AddedStep(old(m), n, m, old(role), before, role, to, 0, k);
        CopiedNew(old(m), n, m, before, role, from, to, k);
        AllCopiedStep(old(m), n, m, before, role, from, to, k);
        i, k := i + PGSIZE, k + 1;
      }
      ok := true;
    }

    /** The loop of `drop`: gives back every table below `t`, each once, and clears the entries of `t`. */
    method DropTable(t: Addr, ghost level: nat)
      requires Valid(m, role) && t in role && role[t].Node? && role[t].level == level && NoLeaves(m, role, role[t].root)
      modifies this
      ensures Valid(m, role) && m.data == old(m.data) && IsEmpty(m, t, 512)
      ensures Freed(old(role), role, t, 512) && OthersKept(old(m), m, old(role), t, 512)
      decreases level
    {
      hide Valid, Freed, OthersKept, NoLeaves, IsEmpty, IsValid, GetPhysicalAddr, Branch, IsReadable, IsWritable,
        IsExecutable;
      NodeFacts(m, role, t);
      DropStart(m, role, t);
      for i := 0 to 512
        invariant Valid(m, role) && m.data == old(m.data) && t in m.tables && t in role && role[t] == old(role)[t]
        invariant Freed(old(role), role, t, i) && OthersKept(old(m), m, old(role), t, i)
          && NoLeaves(m, role, role[t].root)
        invariant IsEmpty(m, t, i) && forall j :: i <= j < 512 ==> EntryAt(m, t, j) == EntryAt(old(m), t, j)
      {
        var pte := m.tables[t][i];
        assert EntryAt(m, t, i) == pte;
        if IsValid(pte) {
          DropEntry(t, i, old(m), old(role), level);
        } else {
          FreedSkip(old(m), old(role), role, t, i);
          KeptMore(old(m), m, old(role), t, i);
          EmptyMore(m, t, i);
        }
      }
    }

    method DropEntry(t: Addr, i: nat, ghost was: Mem, ghost roleWas: Roles, ghost level: nat)
      requires Valid(m, role) && t in m.tables && t in role && role[t].Node? && role[t].level == level && i < 512
      requires Valid(was, roleWas) && t in roleWas && role[t] == roleWas[t] && t in was.tables
      requires Freed(roleWas, role, t, i) && OthersKept(was, m, roleWas, t, i)
      requires NoLeaves(m, role, role[t].root) && NoLeaves(was, roleWas, role[t].root)
      requires IsEmpty(m, t, i) && forall j :: i <= j < 512 ==> EntryAt(m, t, j) == EntryAt(was, t, j)
      requires IsValid(EntryAt(m, t, i))
      modifies this
      ensures Valid(m, role) && m.data == old(m.data) && t in m.tables && t in role && role[t] == roleWas[t]
      ensures Freed(roleWas, role, t, i + 1) && OthersKept(was, m, roleWas, t, i + 1) && NoLeaves(m, role, role[t].root)
      ensures IsEmpty(m, t, i + 1) && forall j :: i + 1 <= j < 512 ==> EntryAt(m, t, j) == EntryAt(was, t, j)
      decreases level, 0
    {
      hide Valid, Freed, OthersKept, NoLeaves, IsEmpty, IsValid, GetPhysicalAddr, Branch, EntryAt, IsReadable,
        IsWritable, IsExecutable;
      var pte := m.tables[t][i];
      assert pte == EntryAt(m, t, i) by { TableEntry(m, t, i); }
      NodeFacts(m, role, t);
      InnerLevel(m, role, t, i);
      EntryHangs(m, role, t, i);
      EntryHangs(was, roleWas, t, i);
      var child := GetPhysicalAddr(pte);
      PageOf(m, role, child);
      BranchFields(child);
      assert !IsReadable(pte) && !IsWritable(pte) && !IsExecutable(pte);
      ghost var before := role;
      DropTable(child, level - 1);
      DroppedChild(old(m), m, before, role, t, i, child);
      ghost var n, mid := m, role;
      PruneValid(m, role, t, i, child);
      role := role[child := Free(|m.free|)];
      m := m.(free := m.free + [child]);
      m := SetEntry(m, t, i, Invalid());
      FreedStep(was, roleWas, before, mid, role, t, i, child);
      KeptStep(was, old(m), n, roleWas, before, t, i, child);
      PrunedRest(old(m), n, was, t, i, child);
      NotUnderItself(roleWas, t, i + 1);
      FreedAt(roleWas, role, t, i + 1);
      StillNoLeaves(was, m, roleWas, role, t, i + 1);
    }

    /** `drop` of a table without mappings: every page of its tree, the root included, is free again, and no other page
        and no other table is touched. */
    method Drop(root: Addr)
      requires Ok() && IsRoot(role, root) && NoLeaves(m, role, root)
      modifies this
      ensures Ok() && m.data == old(m.data) && role.Keys == old(role).Keys
      ensures forall a :: a in role ==>
        if old(role)[a].Node? && old(role)[a].root == root then role[a].Free? else role[a] == old(role)[a]
      ensures SameMaps(old(m), m, role)
    {
      hide Valid, NoLeaves, IsEmpty, Lookup, Freed, OthersKept, GetPhysicalAddr;
      DropTable(root, 2);
      NotUnderItself(old(role), root, 512);
      FreedAt(old(role), role, root, 512);
      ghost var n, mid := m, role;
      UprootValid(m, role, root);
      role := role[root := Lent];
      PushValid(m, role, root);
      role := role[root := Free(|m.free|)];
      m := m.(free := m.free + [root]);
      DropDone(old(m), n, m, old(role), mid, role, root);
    }
  }

  lemma {:induction false} TableEntry(m: Mem, t: Addr, i: nat)
    requires t in m.tables && i < 512
    ensures EntryAt(m, t, i) == m.tables[t][i]
  {
  }

  lemma {:induction false} DropStart(m: Mem, role: Roles, t: Addr)
    requires t in role && role[t].Node?
    ensures Freed(role, role, t, 0) && OthersKept(m, m, role, t, 0) && IsEmpty(m, t, 0)
  {
  }

  lemma {:induction false} KeptMore(m: Mem, m': Mem, role: Roles, t: Addr, i: nat)
    requires t in role && role[t].Node? && OthersKept(m, m', role, t, i)
    ensures OthersKept(m, m', role, t, i + 1)
  {
    hide Via;
  }

  lemma {:induction false} EmptyMore(m: Mem, t: Addr, i: nat)
    requires IsEmpty(m, t, i) && !IsValid(EntryAt(m, t, i))
    ensures IsEmpty(m, t, i + 1)
  {
  }

  /** A valid entry is in an inner table when the leaves are empty. */
  lemma {:induction false} InnerLevel(m: Mem, role: Roles, t: Addr, i: nat)
    requires t in role && role[t].Node? && NoLeaves(m, role, role[t].root) && i < 512 && IsValid(EntryAt(m, t, i))
    ensures role[t].level > 0
  {
    assert role[t].level == 0 ==> IsEmpty(m, t, 512);
  }

  lemma {:induction false} FreedAt(role: Roles, role': Roles, t: Addr, n: nat)
    requires t in role && role[t].Node? && Freed(role, role', t, n)
    ensures t in role' && role'[t] == role[t]
  {
  }

  lemma {:induction false} DroppedChild(m: Mem, m': Mem, role: Roles, role': Roles, t: Addr, i: nat, a: Addr)
    requires Valid(m, role) && Hangs(m, role, t, i, a) && Freed(role, role', a, 512) && OthersKept(m, m', role, a, 512)
    ensures Hangs(m', role', t, i, a) && t in m'.tables && m'.tables[t] == m.tables[t]
    ensures role'[t] == role[t] && role'[a] == role[a]
  {
    hide Valid, IsPage, Branch;
    NodeFacts(m, role, t);
    NodeFacts(m, role, a);
    assert !Under(role, t, a, 512) && !Under(role, a, a, 512);
  }

  lemma {:induction false} PrunedRest(m: Mem, n: Mem, was: Mem, t: Addr, i: nat, a: Addr)
    requires t in m.tables && t in n.tables && n.tables[t] == m.tables[t] && i < 512
    requires IsEmpty(m, t, i) && forall j :: i <= j < 512 ==> EntryAt(m, t, j) == EntryAt(was, t, j)
    ensures var m' := Prune(n, t, i, a);
            IsEmpty(m', t, i + 1) && forall j :: i + 1 <= j < 512 ==> EntryAt(m', t, j) == EntryAt(was, t, j)
  {
    hide IsValid;
    InvalidEntry();
    forall j | 0 <= j < 512 ensures EntryAt(Prune(n, t, i, a), t, j) == if j == i then Invalid() else EntryAt(m, t, j) {
      PruneAt(n, t, i, a, t, j);
    }
  }

  lemma {:induction false} DropDone(m: Mem, n: Mem, m': Mem, role: Roles, mid: Roles, role': Roles, root: Addr)
    requires Sound(m, role) && IsRoot(role, root) && NoLeaves(m, role, root) && Valid(m', role')
    requires Freed(role, mid, root, 512) && OthersKept(m, n, role, root, 512)
    requires m'.tables == n.tables && m'.data == m.data && root in role' && role'[root].Free?
      && role' == mid[root := role'[root]]
    ensures Sound(m', role') && SameMaps(m, m', role') && role'.Keys == role.Keys
    ensures forall a :: a in role' ==>
      if role[a].Node? && role[a].root == root then role'[a].Free? else role'[a] == role[a]
  {
    hide Valid, IsPage, Lookup, Via, GetPhysicalAddr;
    NodeFacts(m, role, root);
    forall a | a in role ensures Under(role, a, root, 512) <==> role[a].Node? && role[a].root == root && a != root {
      AllUnderRoot(m, role, root, a);
    }
    forall r, va | IsRoot(role', r) && 0 <= va < MAXVA ensures Lookup(m', r, va) == Lookup(m, r, va) {
      LookupFrame(m, m', role, r, va);
    }
    forall a | a in role' && role'[a].Owned? ensures OwnedOk(m', role', a) {
      assert OwnedOk(m, role, a);
      if role[a].root == root {
        EmptyLookup(m, role, root, role[a].page * PGSIZE);
      }
    }
  }

  lemma {:induction false} EmptyLookup(m: Mem, role: Roles, root: Addr, va: nat)
    requires Valid(m, role) && IsRoot(role, root) && NoLeaves(m, role, root) && va < MAXVA
    ensures Lookup(m, root, va) == None
  {
    hide Valid, Index, Prefix, IsValid, GetPhysicalAddr;
    Path(m, role, root, va);
    if LeafTable(m, root, va).Some? {
      assert IsEmpty(m, LeafTable(m, root, va).value, 512);
    }
  }

  lemma {:induction false} RootsStay(role: Roles, role': Roles, root: Addr)
    requires Spare(role, role') && IsRoot(role, root)
    ensures IsRoot(role', root)
  {
  }

  lemma {:induction false} LookupValid(m: Mem, root: Addr, va: nat)
    requires Lookup(m, root, va).Some?
    ensures IsValid(Lookup(m, root, va).value)
  {
  }

  lemma {:induction false} CopiedFlags(e: PTE)
    requires IsValid(e) && GetFlags(e) != V
    ensures AreFlags(GetFlags(e)) && GetFlags(e) | V != V
  {
  }

  /** The `k`-th page of `to` is a copy, of its own, of what the `k`-th page of `from` was. */
  ghost predicate CopiedAt(was: Mem, m: Mem, role: Roles, from: Addr, to: Addr, k: nat) {
    && Lookup(was, from, k * PGSIZE).Some? && GetPhysicalAddr(Lookup(was, from, k * PGSIZE).value) in was.data
    && IsValid(Lookup(was, from, k * PGSIZE).value) && GetFlags(Lookup(was, from, k * PGSIZE).value) != V
    && Fresh(m, role, to, k * PGSIZE, GetFlags(Lookup(was, from, k * PGSIZE).value))
    && Content(m, to, k * PGSIZE) == Content(was, from, k * PGSIZE)
  }

  ghost predicate AllCopied(was: Mem, m: Mem, role: Roles, from: Addr, to: Addr, n: nat) {
    forall k :: 0 <= k < n ==> CopiedAt(was, m, role, from, to, k)
  }

  lemma {:induction false} AllCopiedStart(m: Mem, role: Roles, from: Addr, to: Addr)
    ensures AllCopied(m, m, role, from, to, 0)
  {
  }

  /** The entry for `va` is a mapping to memory that is not on the free list. */
  ghost predicate Readable(m: Mem, role: Roles, root: Addr, va: nat) {
    && Lookup(m, root, va).Some? && GetFlags(Lookup(m, root, va).value) != V
    && var a := GetPhysicalAddr(Lookup(m, root, va).value); a in m.data && (a in role ==> !role[a].Free?)
  }

  /** The source is not disturbed by what has been added to the target. */
  lemma {:induction false} SourceStays(was: Mem, m: Mem, roleWas: Roles, role: Roles, from: Addr, to: Addr, k: nat)
    requires Added(was, m, roleWas, role, to, 0, k) && from != to && IsRoot(roleWas, from)
    requires k * PGSIZE < MAXVA && Readable(was, roleWas, from, k * PGSIZE)
    ensures Readable(m, role, from, k * PGSIZE) && Lookup(m, from, k * PGSIZE) == Lookup(was, from, k * PGSIZE)
    ensures var a := GetPhysicalAddr(Lookup(m, from, k * PGSIZE).value);
      a in was.data && a in m.data && m.data[a] == was.data[a]
  {
    hide Lookup, GetPhysicalAddr, GetFlags;
    assert Lookup(m, from, k * PGSIZE) == Lookup(was, from, k * PGSIZE);
  }

  lemma {:induction false} CopiedNew(was: Mem, n: Mem, m: Mem, before: Roles, role: Roles, from: Addr, to: Addr, k: nat)
    requires Readable(n, before, from, k * PGSIZE) && Lookup(n, from, k * PGSIZE) == Lookup(was, from, k * PGSIZE)
    requires var a := GetPhysicalAddr(Lookup(n, from, k * PGSIZE).value);
      a in was.data && a in n.data && n.data[a] == was.data[a]
    requires Fresh(m, role, to, k * PGSIZE, GetFlags(Lookup(n, from, k * PGSIZE).value))
    requires Content(m, to, k * PGSIZE) == Content(n, from, k * PGSIZE)
    ensures CopiedAt(was, m, role, from, to, k)
  {
    hide Lookup, Fresh, GetPhysicalAddr, GetFlags, IsValid;
    LookupValid(was, from, k * PGSIZE);
  }

  lemma {:induction false} CopiedStays(was: Mem, m: Mem, m': Mem, role: Roles, role': Roles, from: Addr, to: Addr,
      j: nat, k: nat)
    requires j < k && k * PGSIZE < MAXVA && IsRoot(role, to) && CopiedAt(was, m, role, from, to, j)
    requires Elsewhere(m, m', role, to, k * PGSIZE) && DataKept(m, m', role)
      && TakenFor(role, role', to, k * PGSIZE / PGSIZE, 1)
    ensures CopiedAt(was, m', role', from, to, j)
  {
    hide Lookup, Fresh, Elsewhere, DataKept, TakenFor, Content, GetPhysicalAddr, GetFlags, IsValid;
    assert k * PGSIZE / PGSIZE == k && j * PGSIZE / PGSIZE == j;
    FreshStays(m, m', role, role', to, k * PGSIZE, j * PGSIZE, GetFlags(Lookup(was, from, j * PGSIZE).value));
  }

  lemma {:induction false} AllCopiedStep(was: Mem, m: Mem, m': Mem, role: Roles, role': Roles, from: Addr, to: Addr,
      k: nat)
    requires k * PGSIZE < MAXVA && IsRoot(role, to) && AllCopied(was, m, role, from, to, k)
    requires Elsewhere(m, m', role, to, k * PGSIZE) && DataKept(m, m', role)
      && TakenFor(role, role', to, k * PGSIZE / PGSIZE, 1)
    requires CopiedAt(was, m', role', from, to, k)
    ensures AllCopied(was, m', role', from, to, k + 1)
  {
    hide CopiedAt, Elsewhere, DataKept, TakenFor;
    forall j | 0 <= j < k + 1 ensures CopiedAt(was, m', role', from, to, j) {
      if j < k {
        CopiedStays(was, m, m', role, role', from, to, j, k);
      }
    }
  }

  lemma {:induction false} AllCopiedUnmaps(was: Mem, m: Mem, m': Mem, role: Roles, role': Roles, from: Addr, to: Addr,
      k: nat)
    requires AllCopied(was, m, role, from, to, k) && IsRoot(role, to) && k * PGSIZE < MAXVA
    requires SameMaps(m, m', role) && Spare(role, role') && Sound(m, role)
    ensures forall j :: 0 <= j < k ==> CanUnmap(m', role', to, 0 + j * PGSIZE, true)
  {
    hide Lookup, Fresh, Content, CanUnmap, SameMaps, Spare, Valid, GetFlags, IsValid, GetPhysicalAddr, AreFlags;
    forall j | 0 <= j < k ensures CanUnmap(m', role', to, 0 + j * PGSIZE, true) {
      assert CopiedAt(was, m, role, from, to, j);
      CopiedFlags(Lookup(was, from, j * PGSIZE).value);
      FreshUnmaps(m, m', role, role', to, j * PGSIZE, GetFlags(Lookup(was, from, j * PGSIZE).value));
    }
  }

  /** How many pages `grow` adds. */
  function Span(oldSize: nat, newSize: nat): nat {
    if RoundUp(newSize) <= RoundUp(oldSize) then 0 else (RoundUp(newSize) - RoundUp(oldSize)) / PGSIZE
  }

  function ZeroPage(): (p: Page)
    ensures forall i :: 0 <= i < PGSIZE ==> p[i] == 0
  {
    seq(PGSIZE, i => 0)
  }

  /** Only the `k` pages from `start` on are translated differently; they own fresh pages. */
  ghost predicate Added(m: Mem, m': Mem, role: Roles, role': Roles, root: Addr, start: nat, k: nat) {
    && (forall r, v :: IsRoot(role, r) && 0 <= v < MAXVA && (r != root || v < start || start + k * PGSIZE <= v) ==>
          Lookup(m', r, v) == Lookup(m, r, v))
    && TakenFor(role, role', root, start / PGSIZE, k) && DataKept(m, m', role)
  }

  ghost predicate GrownAt(m: Mem, role: Roles, root: Addr, start: nat, k: nat, flags: bv64) {
    Fresh(m, role, root, start + k * PGSIZE, flags) && Content(m, root, start + k * PGSIZE) == ZeroPage()
  }

  ghost predicate AllGrown(m: Mem, role: Roles, root: Addr, start: nat, n: nat, flags: bv64) {
    forall k :: 0 <= k < n ==> GrownAt(m, role, root, start, k, flags)
  }

  lemma {:induction false} AddedStart(m: Mem, role: Roles, root: Addr, start: nat)
    ensures Added(m, m, role, role, root, start, 0)
  {
    hide Lookup;
  }

  lemma {:induction false} NotYet(m: Mem, m': Mem, role: Roles, role': Roles, root: Addr, start: nat, k: nat)
    requires Added(m, m', role, role', root, start, k) && IsRoot(role, root) && start + k * PGSIZE < MAXVA
    requires Lookup(m, root, start + k * PGSIZE) == None
    ensures Lookup(m', root, start + k * PGSIZE) == None
  {
    hide Lookup;
  }

  lemma {:induction false} TakenRoots(role: Roles, role': Roles, root: Addr, page: nat, n: nat)
    requires TakenFor(role, role', root, page, n)
    ensures forall r :: IsRoot(role, r) <==> IsRoot(role', r)
  {
  }

  lemma {:induction false} AddedStep(m: Mem, n: Mem, m': Mem, role: Roles, before: Roles, role': Roles, root: Addr,
      start: nat, k: nat)
    requires start % PGSIZE == 0 && Added(m, n, role, before, root, start, k)
    requires Elsewhere(n, m', before, root, start + k * PGSIZE)
      && TakenFor(before, role', root, (start + k * PGSIZE) / PGSIZE, 1)
    requires DataKept(n, m', before)
    ensures Added(m, m', role, role', root, start, k + 1)
  {
    hide Lookup;
    TakenRoots(role, before, root, start / PGSIZE, k);
    assert (start + k * PGSIZE) / PGSIZE == start / PGSIZE + k;
    forall r, v | IsRoot(role, r) && 0 <= v < MAXVA && (r != root || v < start || start + (k + 1) * PGSIZE <= v)
      ensures Lookup(m', r, v) == Lookup(m, r, v)
    {
      InPage(v, start, k);
    }
  }

  lemma {:induction false} FreshStays(m: Mem, m': Mem, role: Roles, role': Roles, root: Addr, va: nat, v: nat,
      flags: bv64)
    requires Fresh(m, role, root, v, flags) && IsRoot(role, root) && v < MAXVA && v / PGSIZE != va / PGSIZE
    requires Elsewhere(m, m', role, root, va) && DataKept(m, m', role)
    requires TakenFor(role, role', root, va / PGSIZE, 1) || Spare(role, role')
    ensures Fresh(m', role', root, v, flags) && Content(m', root, v) == Content(m, root, v)
  {
    hide Lookup, GetPhysicalAddr, Leaf;
  }

  lemma {:induction false} GrownStays(m: Mem, m': Mem, role: Roles, role': Roles, root: Addr, start: nat, j: nat,
      k: nat, flags: bv64)
    requires start % PGSIZE == 0 && j < k && start + k * PGSIZE < MAXVA && IsRoot(role, root)
      && GrownAt(m, role, root, start, j, flags)
    requires Elsewhere(m, m', role, root, start + k * PGSIZE) && DataKept(m, m', role)
    requires TakenFor(role, role', root, (start + k * PGSIZE) / PGSIZE, 1)
    ensures GrownAt(m', role', root, start, j, flags)
  {
    hide Lookup, Fresh, Elsewhere, DataKept, TakenFor;
    assert (start + k * PGSIZE) / PGSIZE == start / PGSIZE + k && (start + j * PGSIZE) / PGSIZE == start / PGSIZE + j;
    FreshStays(m, m', role, role', root, start + k * PGSIZE, start + j * PGSIZE, flags);
  }

  lemma {:induction false} AllGrownStart(m: Mem, role: Roles, root: Addr, start: nat, flags: bv64)
    ensures AllGrown(m, role, root, start, 0, flags)
  {
  }

  lemma {:induction false} AllGrownStep(m: Mem, m': Mem, role: Roles, role': Roles, root: Addr, start: nat, k: nat,
      flags: bv64)
    requires start % PGSIZE == 0 && start + k * PGSIZE < MAXVA && IsRoot(role, root)
      && AllGrown(m, role, root, start, k, flags)
    requires Elsewhere(m, m', role, root, start + k * PGSIZE) && DataKept(m, m', role)
    requires TakenFor(role, role', root, (start + k * PGSIZE) / PGSIZE, 1)
    requires Fresh(m', role', root, start + k * PGSIZE, flags) && Content(m', root, start + k * PGSIZE) == ZeroPage()
    ensures AllGrown(m', role', root, start, k + 1, flags)
  {
    hide GrownAt, Fresh, Elsewhere, DataKept, TakenFor, Content;
    forall j | 0 <= j < k + 1 ensures GrownAt(m', role', root, start, j, flags) {
      if j < k {
        GrownStays(m, m', role, role', root, start, j, k, flags);
      } else {
        GrownNew(m', role', root, start, k, flags);
      }
    }
  }

  lemma {:induction false} AllGrownUnmaps(m: Mem, m': Mem, role: Roles, role': Roles, root: Addr, start: nat, k: nat,
      flags: bv64)
    requires AllGrown(m, role, root, start, k, flags) && IsRoot(role, root) && start + k * PGSIZE < MAXVA
      && AreFlags(flags) && flags | V != V
    requires SameMaps(m, m', role) && Spare(role, role') && Sound(m, role)
    ensures forall j :: 0 <= j < k ==> CanUnmap(m', role', root, start + j * PGSIZE, true)
  {
    hide GrownAt, CanUnmap, SameMaps, Spare, Sound, AreFlags;
    forall j | 0 <= j < k ensures CanUnmap(m', role', root, start + j * PGSIZE, true) {
      GrownUnmaps(m, m', role, role', root, start, j, flags);
    }
  }

  lemma {:induction false} GrownNew(m: Mem, role: Roles, root: Addr, start: nat, k: nat, flags: bv64)
    requires Fresh(m, role, root, start + k * PGSIZE, flags) && Content(m, root, start + k * PGSIZE) == ZeroPage()
    ensures GrownAt(m, role, root, start, k, flags)
  {
  }

  lemma {:induction false} UserFlags(perm: bv64)
    ensures perm | R | U | V != V
  {
  }

  /** A failed attempt leaves the pages added so far. */
  lemma {:induction false} Failed(m: Mem, n: Mem, m': Mem, role: Roles, before: Roles, role': Roles, root: Addr,
      start: nat, k: nat)
    requires Added(m, n, role, before, root, start, k)
    requires SameMaps(n, m', before) && Spare(before, role') && DataKept(n, m', before)
    ensures Added(m, m', role, role', root, start, k)
  {
    hide Lookup;
    TakenRoots(role, before, root, start / PGSIZE, k);
    forall r, v | IsRoot(role, r) && 0 <= v < MAXVA && (r != root || v < start || start + k * PGSIZE <= v)
      ensures Lookup(m', r, v) == Lookup(m, r, v)
    {
      assert IsRoot(before, r);
    }
  }

  lemma {:induction false} FreshUnmaps(m: Mem, m': Mem, role: Roles, role': Roles, root: Addr, v: nat, flags: bv64)
    requires Fresh(m, role, root, v, flags) && IsRoot(role, root) && v < MAXVA && AreFlags(flags) && flags | V != V
    requires SameMaps(m, m', role) && Spare(role, role') && Valid(m, role)
    ensures CanUnmap(m', role', root, v, true)
  {
    hide Lookup, Valid, Leaf, GetPhysicalAddr, GetFlags, IsPage, AreFlags;
    var a := GetPhysicalAddr(Lookup(m, root, v).value);
    PageOf(m, role, a);
    LeafFields(a, flags);
  }

  lemma {:induction false} GrownUnmaps(m: Mem, m': Mem, role: Roles, role': Roles, root: Addr, start: nat, j: nat,
      flags: bv64)
    requires GrownAt(m, role, root, start, j, flags) && IsRoot(role, root) && start + j * PGSIZE < MAXVA
      && AreFlags(flags) && flags | V != V
    requires SameMaps(m, m', role) && Spare(role, role') && Sound(m, role)
    ensures CanUnmap(m', role', root, start + j * PGSIZE, true)
  {
    hide Lookup, Valid, Fresh, CanUnmap;
    FreshUnmaps(m, m', role, role', root, start + j * PGSIZE, flags);
  }

  /** Unmapping the added pages restores every translation and the free list, but for new tables. */
  lemma {:induction false} Undone(m: Mem, n: Mem, m': Mem, role: Roles, before: Roles, role': Roles, root: Addr,
      start: nat, k: nat)
    requires Sound(m, role) && start % PGSIZE == 0 && Added(m, n, role, before, root, start, k) && m'.data == n.data
    requires forall v :: start <= v < start + k * PGSIZE ==> Lookup(m, root, v) == None
    requires || (RangeUnmapped(n, m', before, root, start, k) && Released(before, role', root, start / PGSIZE, k, true))
             || (k == 0 && m' == n && role' == before)
    ensures SameMaps(m, m', role) && Spare(role, role') && DataKept(m, m', role)
  {
    hide Lookup, Valid;
    TakenRoots(role, before, root, start / PGSIZE, k);
    forall a | a in role && role[a].Owned? && role[a].root == root
      ensures !(start / PGSIZE <= role[a].page < start / PGSIZE + k)
    {
      assert OwnedOk(m, role, a);
    }
    forall r, v | IsRoot(role, r) && 0 <= v < MAXVA ensures Lookup(m', r, v) == Lookup(m, r, v) {
      assert IsRoot(before, r);
    }
  }

  /** The page that `va` is mapped to was fresh and belongs to it. */
  ghost predicate Fresh(m: Mem, role: Roles, root: Addr, va: nat, flags: bv64) {
    && Owns(m, role, root, va) && GetPhysicalAddr(Lookup(m, root, va).value) in m.data
    && Lookup(m, root, va) == Some(Leaf(GetPhysicalAddr(Lookup(m, root, va).value), flags))
  }

  /** The contents of the page that `va` is mapped to. */
  ghost function Content(m: Mem, root: Addr, va: nat): Page
    requires Lookup(m, root, va).Some? && GetPhysicalAddr(Lookup(m, root, va).value) in m.data
  {
    m.data[GetPhysicalAddr(Lookup(m, root, va).value)]
  }

  /** Only the page of `va` is translated differently. */
  ghost predicate Elsewhere(m: Mem, m': Mem, role: Roles, root: Addr, va: nat) {
    forall r, v :: IsRoot(role, r) && 0 <= v < MAXVA && (r != root || v / PGSIZE != va / PGSIZE) ==>
      Lookup(m', r, v) == Lookup(m, r, v)
  }

  /** Pages in use keep their contents. */
  ghost predicate DataKept(m: Mem, m': Mem, role: Roles) {
    && (forall a :: a in m.data ==> a in m'.data)
    && (forall a :: a in m.data && (a in role ==> !role[a].Free?) ==> m'.data[a] == m.data[a])
  }

  /** Free pages may have become tables, or the property of the `n` virtual pages from `page` on. */
  ghost predicate TakenFor(role: Roles, role': Roles, root: Addr, page: nat, n: nat) {
    && role'.Keys == role.Keys
    && forall a :: a in role ==>
        if role[a].Free?
        then role'[a].Free? || (role'[a].Node? && role'[a].level < 2)
            || (role'[a].Owned? && role'[a].root == root && page <= role'[a].page < page + n)
        else role'[a] == role[a]
  }

  lemma {:induction false} WriteSound(m: Mem, role: Roles, a: Addr, page: Page)
    requires Sound(m, role)
    ensures Sound(m.(data := m.data[a := page]), role)
  {
    hide Valid, Lookup, GetPhysicalAddr;
    var m' := m.(data := m.data[a := page]);
    WriteValid(m, role, a, page);
    SameTables(m, m', role);
    SoundFrame(m, role, m', role);
  }

  lemma {:induction false} LookupBelow(m: Mem, root: Addr, va: nat)
    requires va % PGSIZE == 0
    ensures forall v :: va <= v < va + PGSIZE ==> Lookup(m, root, v) == Lookup(m, root, va)
  {
    hide Lookup;
    forall v | va <= v < va + PGSIZE ensures Lookup(m, root, v) == Lookup(m, root, va) {
      LookupPage(m, root, v);
      assert v / PGSIZE * PGSIZE == va;
    }
  }

  lemma {:induction false} SpareLent(role: Roles, role': Roles, a: Addr)
    requires Spare(role, role') && a in role && role[a] == Lent
    ensures a in role' && role'[a] == Lent
  {
  }

  lemma {:induction false} RangeNone(m: Mem, m': Mem, role: Roles, root: Addr, va: nat, pa: Addr, flags: bv64)
    requires RangeMapped(m, m', role, root, va, 0, pa, flags)
    ensures SameMaps(m, m', role)
  {
    hide Lookup;
  }

  lemma {:induction false} RangeOne(m: Mem, m': Mem, role: Roles, root: Addr, va: nat, pa: Addr, flags: bv64)
    requires RangeMapped(m, m', role, root, va, 1, pa, flags) && va % PGSIZE == 0 && va < MAXVA && IsRoot(role, root)
    ensures Lookup(m', root, va) == Some(Leaf(pa, flags)) && Elsewhere(m, m', role, root, va)
  {
    hide Lookup, Leaf;
    assert Nth(pa, 0) == pa && (va - va) / PGSIZE == 0;
    forall v: nat ensures v / PGSIZE == va / PGSIZE <==> va <= v < va + PGSIZE {
      InPage(v, va, 0);
    }
  }

  lemma {:induction false} SpareLoan(role: Roles, before: Roles, role': Roles, a: Addr)
    requires a in role && role[a].Free? && before == role[a := Lent] && a in role' && role'[a].Free?
    requires exists r :: Spare(before, r) && role' == r[a := role'[a]]
    ensures Spare(role, role')
  {
  }

  /** The page that an entry has just been given becomes its property. */
  lemma {:induction false} OwnSound(m: Mem, role: Roles, root: Addr, va: nat, a: Addr, flags: bv64)
    requires Sound(m, role) && IsRoot(role, root) && va < MAXVA && va % PGSIZE == 0 && a in role && role[a] == Lent
      && a in m.data
    requires Lookup(m, root, va) == Some(Leaf(a, flags)) && GetPhysicalAddr(Leaf(a, flags)) == a
    ensures Sound(m, role[a := Owned(root, va / PGSIZE)])
  {
    hide Valid, Lookup, GetPhysicalAddr, Leaf;
    var role' := role[a := Owned(root, va / PGSIZE)];
    OwnValid(m, role, a, Owned(root, va / PGSIZE));
    assert va / PGSIZE * PGSIZE == va;
    forall b | b in role' && role'[b].Owned? ensures OwnedOk(m, role', b) {
      assert b != a ==> OwnedOk(m, role, b);
    }
  }

  lemma {:induction false} TakenOne(role: Roles, before: Roles, lent: Roles, role': Roles, root: Addr, va: nat, a: Addr)
    requires a in role && role[a].Free? && before == role[a := Lent] && Spare(before, lent)
    requires role' == lent[a := Owned(root, va / PGSIZE)]
    ensures TakenFor(role, role', root, va / PGSIZE, 1)
  {
  }

  /** The `k` pages from `va` on are no longer mapped; nothing else differs. */
  ghost predicate RangeUnmapped(m: Mem, m': Mem, role: Roles, root: Addr, va: nat, k: nat) {
    forall r, v :: IsRoot(role, r) && 0 <= v < MAXVA ==>
      Lookup(m', r, v) == if r == root && va <= v < va + k * PGSIZE then None else Lookup(m, r, v)
  }

  lemma {:induction false} UnmappedStart(m: Mem, role: Roles, root: Addr, va: nat, free: bool)
    ensures RangeUnmapped(m, m, role, root, va, 0) && Released(role, role, root, va / PGSIZE, 0, free)
  {
    hide Lookup;
  }

  lemma {:induction false} UnmappedStep(m: Mem, n: Mem, m': Mem, role: Roles, role': Roles, root: Addr, va: nat, k: nat)
    requires va % PGSIZE == 0 && RangeUnmapped(m, n, role, root, va, k)
    requires PageMapped(n, m', role', root, va + k * PGSIZE, None) && forall r :: IsRoot(role, r) ==> IsRoot(role', r)
    ensures RangeUnmapped(m, m', role, root, va, k + 1)
  {
    hide Lookup;
    forall r, v | IsRoot(role, r) && 0 <= v < MAXVA
      ensures Lookup(m', r, v) == if r == root && va <= v < va + (k + 1) * PGSIZE then None else Lookup(m, r, v)
    {
      assert IsRoot(role', r);
      InPage(v, va, k);
    }
  }

  lemma {:induction false} ReleasedStep(role: Roles, before: Roles, role': Roles, root: Addr, va: nat, k: nat,
      free: bool)
    requires va % PGSIZE == 0 && Released(role, before, root, va / PGSIZE, k, free)
    requires Released(before, role', root, (va + k * PGSIZE) / PGSIZE, 1, free)
    ensures Released(role, role', root, va / PGSIZE, k + 1, free)
  {
    assert (va + k * PGSIZE) / PGSIZE == va / PGSIZE + k;
  }

  /** The pages that are still to come are as they were. */
  lemma {:induction false} StillThere(m: Mem, m': Mem, role: Roles, role': Roles, root: Addr, va: nat, k: nat,
      free: bool)
    requires IsRoot(role, root) && va % PGSIZE == 0 && Proper(m, role, root, va + k * PGSIZE, free)
    requires RangeUnmapped(m, m', role, root, va, k) && Released(role, role', root, va / PGSIZE, k, free)
    ensures Proper(m', role', root, va + k * PGSIZE, free)
    ensures Present(m', root, va + k * PGSIZE) <==> Present(m, root, va + k * PGSIZE)
  {
    hide Lookup, GetPhysicalAddr, GetFlags;
    assert (va + k * PGSIZE) / PGSIZE == va / PGSIZE + k;
  }

  /** The entry for `va` passes the `unwrap` and the assertions of `unmap`: it is there, and is a mapping. */
  ghost predicate Present(m: Mem, root: Addr, va: nat) {
    va < MAXVA && Lookup(m, root, va).Some? && GetFlags(Lookup(m, root, va).value) != V
  }

  /** If there is a mapping at `va`, it is to be freed exactly if it owns its page. */
  ghost predicate Proper(m: Mem, role: Roles, root: Addr, va: nat, free: bool) {
    Present(m, root, va) ==> CanUnmap(m, role, root, va, free)
  }

  lemma {:induction false} AllProper(m: Mem, role: Roles, root: Addr, va: nat, n: nat)
    requires va + n * PGSIZE <= MAXVA && forall j :: 0 <= j < n ==> CanUnmap(m, role, root, va + j * PGSIZE, true)
    ensures forall j :: 0 <= j < n ==> Proper(m, role, root, va + j * PGSIZE, true)
    ensures forall j :: 0 <= j < n ==> Present(m, root, va + j * PGSIZE)
  {
    hide Lookup, GetFlags, Owns;
    forall j | 0 <= j < n ensures Present(m, root, va + j * PGSIZE) {
      assert CanUnmap(m, role, root, va + j * PGSIZE, true);
      assert j * PGSIZE <= (n - 1) * PGSIZE;
    }
  }

  lemma {:induction false} NoTable(m: Mem, root: Addr, va: nat)
    requires LeafTable(m, root, va).None?
    ensures Lookup(m, root, va).None?
  {
  }

  /** How many pages `shrink` removes. */
  function Excess(oldSize: nat, newSize: nat): nat {
    if newSize >= oldSize then 0 else (RoundUp(oldSize) - RoundUp(newSize)) / PGSIZE
  }

  /** The comment on `shrink` allows an `old_size` that is larger than the process.  In a process without pages,
      shrinking from one page to none panics. */
  method ShrinkTooFar(machine: Machine) returns (root: Addr, r: Option<nat>)
    requires machine.Ok() && machine.m.free != []
    modifies machine
    ensures machine.Ok() && IsRoot(machine.role, root) && MapsNothing(machine.m, root) && r.None?
  {
    hide Sound, Lookup;
    var found := machine.AllocateRoot();
    root := found.value;
    assert forall k :: 0 <= k < 1 ==> !Present(machine.m, root, RoundUp(0) + k * PGSIZE);
    ghost var done;
    r, done := machine.Shrink(root, PGSIZE, 0);
  }

  /** The entry for `va` is a mapping, not a table, and is to be freed exactly if it owns its page. */
  ghost predicate CanUnmap(m: Mem, role: Roles, root: Addr, va: nat, free: bool) {
    && Lookup(m, root, va).Some? && GetFlags(Lookup(m, root, va).value) != V
    && if free then Owns(m, role, root, va) else forall a :: a in role ==> role[a] != Owned(root, va / PGSIZE)
  }

  ghost predicate Owns(m: Mem, role: Roles, root: Addr, va: nat) {
    && Lookup(m, root, va).Some?
    && var a := GetPhysicalAddr(Lookup(m, root, va).value); a in role && role[a] == Owned(root, va / PGSIZE)
  }

  /** Exactly the pages owned by the `n` virtual pages from `page` on have become free, if they were to be freed. */
  ghost predicate Released(role: Roles, role': Roles, root: Addr, page: nat, n: nat, free: bool) {
    && role'.Keys == role.Keys
    && forall a :: a in role ==>
        if free && role[a].Owned? && role[a].root == root && page <= role[a].page < page + n
        then role'[a].Free? else role'[a] == role[a]
  }

  lemma {:induction false} LookupTable(m: Mem, root: Addr, va: nat)
    requires Lookup(m, root, va).Some?
    ensures LeafTable(m, root, va).Some?
  {
  }

  lemma {:induction false} NodeStays(m: Mem, m': Mem, role: Roles, role': Roles, t: Addr, root: Addr, prefix: nat)
    requires IsNode(m, role, t, root, 0, prefix) && m'.tables == m.tables && t in role' && role'[t] == role[t]
    ensures IsNode(m', role', t, root, 0, prefix)
  {
  }

  lemma {:induction false} PageMappedAs(m: Mem, n: Mem, m': Mem, role: Roles, role': Roles, root: Addr, va: nat)
    requires SameMaps(m, n, role) && PageMapped(n, m', role', root, va, None)
    requires forall r :: IsRoot(role, r) ==> IsRoot(role', r)
    ensures PageMapped(m, m', role, root, va, None)
  {
    hide Lookup;
    forall r, v | IsRoot(role, r) && 0 <= v < MAXVA
      ensures Lookup(m', r, v) == if r == root && v / PGSIZE == va / PGSIZE then None else Lookup(m, r, v)
    {
      assert IsRoot(role', r);
    }
  }

  lemma {:induction false} UnmapSound(m: Mem, m': Mem, role: Roles, root: Addr, va: nat)
    requires Sound(m, role) && Valid(m', role) && m'.data == m.data && va < MAXVA && IsRoot(role, root)
    requires PageMapped(m, m', role, root, va, None) && forall a :: a in role ==> role[a] != Owned(root, va / PGSIZE)
    ensures Sound(m', role)
  {
    hide Valid, Lookup, GetPhysicalAddr;
    forall a | a in role && role[a].Owned? ensures OwnedOk(m', role, a) {
      assert OwnedOk(m, role, a);
      assert role[a].page * PGSIZE / PGSIZE == role[a].page;
    }
  }

  lemma {:induction false} RangeNext(m: Mem, n: Mem, role: Roles, root: Addr, va: nat, k: nat, pa: Addr, flags: bv64)
    requires RangeMapped(m, n, role, root, va, k, pa, flags) && IsRoot(role, root) && va + k * PGSIZE < MAXVA
    ensures Lookup(n, root, va + k * PGSIZE) == Lookup(m, root, va + k * PGSIZE)
  {
    hide Lookup, Leaf, Nth;
  }

  lemma {:induction false} RangeSame(m: Mem, n: Mem, m': Mem, role: Roles, before: Roles, root: Addr, va: nat, k: nat,
      pa: Addr, flags: bv64)
    requires RangeMapped(m, n, role, root, va, k, pa, flags) && SameMaps(n, m', before)
    requires forall r :: IsRoot(role, r) ==> IsRoot(before, r)
    ensures RangeMapped(m, m', role, root, va, k, pa, flags)
  {
    hide Lookup, Leaf, Nth;
    forall r, v | IsRoot(role, r) && 0 <= v < MAXVA ensures Lookup(m', r, v) == Lookup(n, r, v) {
      assert IsRoot(before, r);
    }
  }

  function RoundDown(a: nat): nat {
    a / PGSIZE * PGSIZE
  }

  function RoundUp(a: nat): nat {
    (a + PGSIZE - 1) / PGSIZE * PGSIZE
  }

  /** The number of pages in `size` bytes from a page boundary. */
  function Pages(size: nat): nat {
    (size + PGSIZE - 1) / PGSIZE
  }

  /** The `k`-th page from `pa` on, in the machine's arithmetic. */
  function Nth(pa: Addr, k: nat): Addr {
    if k == 0 then pa else Addr(Nth(pa, k - 1).bits + 0x1000)
  }

  /** The first `k` pages from `va` on are now mapped, to consecutive physical pages; nothing else differs. */
  ghost predicate RangeMapped(m: Mem, m': Mem, role: Roles, root: Addr, va: nat, k: nat, pa: Addr, flags: bv64) {
    forall r, v :: IsRoot(role, r) && 0 <= v < MAXVA ==>
      Lookup(m', r, v) ==
        if r == root && va <= v < va + k * PGSIZE then Some(Leaf(Nth(pa, (v - va) / PGSIZE), flags))
        else Lookup(m, r, v)
  }

  /** `map` counts the pages from the page of `va` but takes the last address from the rounded `va`.  So it maps all of
      the bytes asked for if and only if they end within as many pages as `size` bytes alone fill. */
  lemma {:induction false} MapCoversIff(m: Mem, m': Mem, role: Roles, root: Addr, va: nat, pa: Addr, size: nat,
      flags: bv64)
    requires IsRoot(role, root) && size > 0 && va + size <= MAXVA
    requires forall v :: va <= v < va + size ==> Lookup(m, root, v) == None
    requires RangeMapped(m, m', role, root, RoundDown(va), Pages(size), pa, flags)
    ensures (forall v :: va <= v < va + size ==> Lookup(m', root, v).Some?) <==> va % PGSIZE + size <= RoundUp(size)
  {
    hide Lookup, Leaf;
    var last := va + size - 1;
    assert Lookup(m', root, last).Some? <==> last < RoundDown(va) + Pages(size) * PGSIZE;
    assert RoundDown(va) <= va;
  }

  /** Two bytes across a page boundary: the second one stays unmapped. */
  lemma {:induction false} UnalignedMapMisses(m: Mem, m': Mem, role: Roles, root: Addr, pa: Addr, flags: bv64)
    requires IsRoot(role, root) && MapsNothing(m, root)
    requires RangeMapped(m, m', role, root, RoundDown(0xfff), Pages(2), pa, flags)
    ensures Lookup(m', root, 0xfff).Some? && Lookup(m', root, 0x1000) == None
  {
    hide Lookup, Leaf;
    assert RoundDown(0xfff) == 0 && Pages(2) == 1;
    assert Lookup(m, root, 0x1000) == None;
  }

  /** `map` itself, on a new table, asked for two bytes across a page boundary. */
  method MapAcross(machine: Machine, pa: Addr, flags: bv64) returns (root: Addr, ok: bool)
    requires machine.Ok() && machine.m.free != [] && AreFlags(flags)
    modifies machine
    ensures machine.Ok() && IsRoot(machine.role, root)
    ensures ok ==> Lookup(machine.m, root, 0xfff).Some? && Lookup(machine.m, root, 0x1000) == None
  {
    hide Sound, Lookup, Leaf, AreFlags, Spare;
    var found := machine.AllocateRoot();
    root := found.value;
    ghost var m, role := machine.m, machine.role;
    ghost var done;
    ok, done := machine.Map(root, 0xfff, pa, 2, flags);
    SpareRoots(role, machine.role);
    if ok {
      UnalignedMapMisses(m, machine.m, role, root, pa, flags);
    }
  }

  lemma {:induction false} SpareRefl(role: Roles)
    ensures Spare(role, role)
  {
  }

  lemma {:induction false} RangeStart(m: Mem, role: Roles, root: Addr, va: nat, pa: Addr, flags: bv64)
    ensures RangeMapped(m, m, role, root, va, 0, pa, flags)
  {
  }

  lemma {:induction false} RangeStep(m: Mem, n: Mem, m': Mem, role: Roles, before: Roles, root: Addr, va: nat, k: nat,
      pa: Addr, flags: bv64)
    requires va % PGSIZE == 0 && RangeMapped(m, n, role, root, va, k, pa, flags)
    requires PageMapped(n, m', before, root, va + k * PGSIZE, Some(Leaf(Nth(pa, k), flags)))
    requires forall r :: IsRoot(role, r) ==> IsRoot(before, r)
    ensures RangeMapped(m, m', role, root, va, k + 1, pa, flags)
  {
    hide Lookup, Leaf, Nth;
    forall r, v | IsRoot(role, r) && 0 <= v < MAXVA
      ensures Lookup(m', r, v)
              == if r == root && va <= v < va + (k + 1) * PGSIZE then Some(Leaf(Nth(pa, (v - va) / PGSIZE), flags))
                 else Lookup(m, r, v)
    {
      assert IsRoot(before, r);
      InPage(v, va, k);
    }
  }

  lemma {:induction false} InPage(v: nat, va: nat, k: nat)
    requires va % PGSIZE == 0
    ensures v / PGSIZE == (va + k * PGSIZE) / PGSIZE <==> va + k * PGSIZE <= v < va + (k + 1) * PGSIZE
    ensures va + k * PGSIZE <= v < va + (k + 1) * PGSIZE ==> (v - va) / PGSIZE == k
  {
  }

  /** The page of `va` is now translated by `e`, and no other translation through any table differs. */
  ghost predicate PageMapped(m: Mem, m': Mem, role: Roles, root: Addr, va: nat, e: Option<PTE>) {
    forall r, v :: IsRoot(role, r) && 0 <= v < MAXVA ==>
      Lookup(m', r, v) == if r == root && v / PGSIZE == va / PGSIZE then e else Lookup(m, r, v)
  }

  /** A mapping where there was none leaves all owned pages mapped. */
  lemma {:induction false} NewMapSound(m: Mem, m': Mem, role: Roles, root: Addr, va: nat, e: PTE)
    requires Sound(m, role) && Valid(m', role) && m'.data == m.data && va < MAXVA && Lookup(m, root, va) == None
    requires IsRoot(role, root) && PageMapped(m, m', role, root, va, Some(e))
    ensures Sound(m', role)
  {
    hide Valid, Lookup, GetPhysicalAddr;
    LookupPage(m, root, va);
    forall a | a in role && role[a].Owned? ensures OwnedOk(m', role, a) {
      assert OwnedOk(m, role, a);
      assert role[a].page * PGSIZE / PGSIZE == role[a].page;
    }
  }

  lemma {:induction false} LeafIsValid(pa: Addr, flags: bv64)
    ensures IsValid(Leaf(pa, flags))
  {
    var x := SetFlags(SetPhysicalAddr(Invalid(), pa), flags).bits;
    assert (x | 0x01) & 0x01 != 0;
  }

  lemma {:induction false} LookupEntry(m: Mem, root: Addr, va: nat)
    requires LeafTable(m, root, va).Some?
    ensures Lookup(m, root, va).None? <==> !IsValid(EntryAt(m, LeafTable(m, root, va).value, Index(0, va)))
    ensures Lookup(m, root, va).Some? ==>
      Lookup(m, root, va).value == EntryAt(m, LeafTable(m, root, va).value, Index(0, va))
  {
  }

  lemma {:induction false} LeafMapped(m: Mem, role: Roles, root: Addr, va: nat, t: Addr, e: PTE)
    requires Valid(m, role) && IsRoot(role, root) && va < MAXVA && IsNode(m, role, t, root, 0, Prefix(0, va))
    ensures PageMapped(m, SetEntry(m, t, Index(0, va), e), role, root, va, if IsValid(e) then Some(e) else None)
  {
    hide Valid, Index, Prefix, Lookup, SetEntry;
    forall r, v | IsRoot(role, r) && 0 <= v < MAXVA
      ensures Lookup(SetEntry(m, t, Index(0, va), e), r, v)
              == if r == root
                  && v / PGSIZE == va / PGSIZE then (if IsValid(e) then Some(e) else None) else Lookup(m, r, v)
    {
      SetLeafLookup(m, role, t, Index(0, va), e, r, v);
      SamePage(va, v);
    }
  }

  lemma {:induction false} SameTables(m: Mem, m': Mem, role: Roles)
    requires m'.tables == m.tables
    ensures SameMaps(m, m', role)
  {
    forall root, va | IsRoot(role, root) && 0 <= va < MAXVA ensures Lookup(m', root, va) == Lookup(m, root, va) {
      SameLookup(m, m', root, va);
    }
  }

  lemma {:induction false} SameMapsVia(m: Mem, n: Mem, mid: Mem, m': Mem, role: Roles, role': Roles)
    requires n.tables == m.tables && SameMaps(n, mid, role') && m'.tables == mid.tables
    requires forall r :: IsRoot(role, r) ==> IsRoot(role', r)
    ensures SameMaps(m, m', role)
  {
    hide Lookup;
    SameTables(m, n, role);
    SameTables(mid, m', role);
    forall r, v | IsRoot(role, r) && 0 <= v < MAXVA ensures Lookup(m', r, v) == Lookup(m, r, v) {
      assert IsRoot(role', r);
    }
  }

  lemma {:induction false} SameMapsAs(m: Mem, n: Mem, m': Mem, role: Roles)
    requires n.tables == m.tables && SameMaps(n, m', role)
    ensures SameMaps(m, m', role)
  {
    SameTables(m, n, role);
  }

  lemma {:induction false} SameLookup(m: Mem, m': Mem, root: Addr, va: nat)
    requires m'.tables == m.tables
    ensures Lookup(m', root, va) == Lookup(m, root, va) && LeafTable(m', root, va) == LeafTable(m, root, va)
  {
  }

  /** A new root maps nothing; the other tables do not notice it. */
  lemma {:induction false} RootMaps(m: Mem, role: Roles, a: Addr)
    requires Valid(m, role) && a in role && !role[a].Node?
    ensures MapsNothing(m.(tables := m.tables[a := EmptyTable()]), a)
    ensures SameMaps(m, m.(tables := m.tables[a := EmptyTable()]), role)
  {
    hide Valid, IsPage, IsValid, GetPhysicalAddr, Index, Prefix;
    InvalidEntry();
    var m' := m.(tables := m.tables[a := EmptyTable()]);
    forall root, va | IsRoot(role, root) && 0 <= va < MAXVA ensures Lookup(m', root, va) == Lookup(m, root, va) {
      Path(m, role, root, va);
      RootIsNode(m, role, root);
    }
  }
}
