/** Three-level page tables in physical memory, and the role that every page of the allocator plays. */
module PageTree {
  import opened Blocks
  import opened Options
  import opened Pte

  const PGSIZE: nat := 0x1000
  const MAXVA: nat := 0x40_0000_0000

  // ---- virtual addresses -------------------------------------------------------------------------------------

  /** The 9-bit index of `va` at a level, bits 12, 21 and 30 upwards. */
  function Index(level: nat, va: nat): (i: nat)
    ensures i < 512
  {
    if level == 0 then va / 0x1000 % 512 else if level == 1 then va / 0x20_0000 % 512 else va / 0x4000_0000 % 512
  }

  /** Which table of a level serves `va`, counted from address zero. */
  function Prefix(level: nat, va: nat): nat {
    if level == 0 then va / 0x20_0000 else if level == 1 then va / 0x4000_0000 else 0
  }

  lemma {:induction false} PrefixSteps(va: nat)
    requires va < MAXVA
    ensures Prefix(1, va) == Prefix(2, va) * 512 + Index(2, va)
    ensures Prefix(0, va) == Prefix(1, va) * 512 + Index(1, va)
    ensures va / PGSIZE == Prefix(0, va) * 512 + Index(0, va)
  {
  }

  /** The three indices name each page once. */
  lemma {:induction false} IndexInjective(va: nat, vb: nat)
    requires va < MAXVA && vb < MAXVA
    requires Index(2, va) == Index(2, vb) && Index(1, va) == Index(1, vb) && Index(0, va) == Index(0, vb)
    ensures va / PGSIZE == vb / PGSIZE
  {
    PrefixSteps(va);
    PrefixSteps(vb);
  }

  lemma {:induction false} SamePage(va: nat, vb: nat)
    requires va < MAXVA && vb < MAXVA
    ensures va / PGSIZE == vb / PGSIZE <==> Prefix(0, va) == Prefix(0, vb) && Index(0, va) == Index(0, vb)
  {
    PrefixSteps(va);
    PrefixSteps(vb);
  }

  // ---- memory ------------------------------------------------------------------------------------------------

  type Page = b: seq<Byte> | |b| == PGSIZE witness seq(PGSIZE, i => 0)
  type Table = t: seq<PTE> | |t| == 512 witness seq(512, i => Invalid())

  /** The tables and the data pages of physical memory, and the free pages, of which the last is handed out next. */
  datatype Mem = Mem(tables: map<Addr, Table>, data: map<Addr, Page>, free: seq<Addr>)

  /** What a page of the allocator is used for.  A table knows its root, its level, which part of the address space it
      serves, and the entry that points to it.  An owned page knows the table and the virtual page that map it.  A lent
      page has been handed out and is in nobody's table yet, or belongs to another part of the kernel. */
  datatype Role =
    | Free(pos: nat)
    | Node(root: Addr, level: nat, prefix: nat, parent: Addr, index: nat)
    | Owned(root: Addr, page: nat)
    | Lent

  type Roles = map<Addr, Role>

  function EntryAt(m: Mem, t: Addr, i: nat): PTE {
    if t in m.tables && i < 512 then m.tables[t][i] else Invalid()
  }

  /** The table that an entry points to. */
  function Down(m: Mem, t: Addr, i: nat): Option<Addr> {
    var e := EntryAt(m, t, i);
    if IsValid(e) then Some(GetPhysicalAddr(e)) else None
  }

  /** The level-0 table for `va`. */
  function LeafTable(m: Mem, root: Addr, va: nat): Option<Addr> {
    match Down(m, root, Index(2, va))
    case None => None
    case Some(t) => Down(m, t, Index(1, va))
  }

  /** The translation of `va`, as the hardware walks it: its valid leaf entry. */
  function Lookup(m: Mem, root: Addr, va: nat): Option<PTE> {
    match LeafTable(m, root, va)
    case None => None
    case Some(t) =>
      var e := EntryAt(m, t, Index(0, va));
      if IsValid(e) then Some(e) else None
  }

  // ---- the invariant -----------------------------------------------------------------------------------------

  ghost predicate IsRoot(role: Roles, root: Addr) {
    root in role && role[root].Node? && role[root].level == 2 && role[root].root == root
  }

  ghost predicate IsNode(m: Mem, role: Roles, a: Addr, root: Addr, level: nat, prefix: nat) {
    && a in role && role[a].Node? && role[a].root == root && role[a].level == level && role[a].prefix == prefix
    && a in m.tables
  }

  ghost predicate NodeOk(m: Mem, role: Roles, a: Addr)
    requires a in role && role[a].Node?
  {
    var n := role[a];
    && a in m.tables && n.level <= 2 && (n.level == 2 <==> a == n.root) && (n.level == 2 ==> n.prefix == 0)
    && (n.level < 2 ==>
          && n.parent in role && role[n.parent].Node? && n.index < 512
          && role[n.parent].root == n.root && role[n.parent].level == n.level + 1
          && n.prefix == role[n.parent].prefix * 512 + n.index
          && EntryAt(m, n.parent, n.index) == Branch(a))
  }

  ghost predicate RoleOk(m: Mem, role: Roles, a: Addr)
    requires a in role
  {
    match role[a]
    case Free(pos) => pos < |m.free| && m.free[pos] == a
    case Node(_, _, _, _, _) => NodeOk(m, role, a)
    case Owned(_, _) => true
    case Lent => true
  }

  /** A valid entry of an inner table points to a table that knows it. */
  ghost predicate EntryOk(m: Mem, role: Roles, t: Addr, i: nat)
    requires t in role && role[t].Node?
  {
    var e := EntryAt(m, t, i);
    role[t].level > 0 && i < 512 && IsValid(e) ==>
      var a := GetPhysicalAddr(e);
      && e == Branch(a) && a in role
      && role[a] == Node(role[t].root, role[t].level - 1, role[t].prefix * 512 + i, t, i)
  }

  /** The free list is the free pages, and the tables form unshared trees. */
  ghost predicate Valid(m: Mem, role: Roles) {
    && (forall a :: a in role ==> IsPage(a) && RoleOk(m, role, a))
    && (forall k :: 0 <= k < |m.free| ==> m.free[k] in role && role[m.free[k]] == Free(k))
    && (forall t, i :: t in role && role[t].Node? && 0 <= i < 512 ==> EntryOk(m, role, t, i))
  }

  lemma {:induction false} NodeFacts(m: Mem, role: Roles, a: Addr)
    requires Valid(m, role) && a in role && role[a].Node?
    ensures NodeOk(m, role, a)
  {
    assert RoleOk(m, role, a);
  }

  lemma {:induction false} RootIsNode(m: Mem, role: Roles, root: Addr)
    requires Valid(m, role) && IsRoot(role, root)
    ensures IsNode(m, role, root, root, 2, 0)
  {
    hide Valid;
    NodeFacts(m, role, root);
  }

  /** One step down the tree. */
  lemma {:induction false} DownIsNode(m: Mem, role: Roles, t: Addr, root: Addr, level: nat, prefix: nat, i: nat)
    requires Valid(m, role) && IsNode(m, role, t, root, level + 1, prefix) && i < 512 && Down(m, t, i).Some?
    ensures IsNode(m, role, Down(m, t, i).value, root, level, prefix * 512 + i)
    ensures var a := Down(m, t, i).value; role[a].parent == t && role[a].index == i
  {
    assert EntryOk(m, role, t, i);
    assert RoleOk(m, role, Down(m, t, i).value);
  }

  /** The walk from a root stays in the tree of that root, in the tables that serve the address. */
  lemma {:induction false} Path(m: Mem, role: Roles, root: Addr, va: nat)
    requires Valid(m, role) && IsRoot(role, root) && va < MAXVA
    ensures Down(m, root, Index(2, va)).Some? ==>
      IsNode(m, role, Down(m, root, Index(2, va)).value, root, 1, Prefix(1, va))
    ensures LeafTable(m, root, va).Some? ==> IsNode(m, role, LeafTable(m, root, va).value, root, 0, Prefix(0, va))
  {
    hide Valid, Index, Prefix, EntryAt, IsNode;
    RootIsNode(m, role, root);
    PrefixSteps(va);
    assert Prefix(2, va) == 0 by { PrefixTop(va); }
    if Down(m, root, Index(2, va)).Some? {
      DownIsNode(m, role, root, root, 1, 0, Index(2, va));
      var t := Down(m, root, Index(2, va)).value;
      if Down(m, t, Index(1, va)).Some? {
        DownIsNode(m, role, t, root, 0, Prefix(1, va), Index(1, va));
      }
    }
  }

  lemma {:induction false} PrefixTop(va: nat)
    ensures Prefix(2, va) == 0
  {
  }

  /** Conversely, the walk reaches every level-0 table, so that no two of them serve the same addresses. */
  lemma {:induction false} Reach(m: Mem, role: Roles, t: Addr, root: Addr, va: nat)
    requires Valid(m, role) && IsRoot(role, root) && va < MAXVA && IsNode(m, role, t, root, 0, Prefix(0, va))
    ensures LeafTable(m, root, va) == Some(t)
  {
    hide Valid, Index, Prefix, EntryAt, IsPage, IsValid, GetPhysicalAddr, Branch;
    PrefixSteps(va);
    PrefixTop(va);
    NodeFacts(m, role, t);
    var n := role[t];
    NodeFacts(m, role, n.parent);
    var p := role[n.parent];
    NodeFacts(m, role, p.parent);
    assert p.parent == root && p.prefix == p.index;
    assert n.index == Index(1, va) && p.prefix == Prefix(1, va);
    PageOf(m, role, t);
    PageOf(m, role, n.parent);
    BranchFields(t);
    BranchFields(n.parent);
  }

  lemma {:induction false} PageOf(m: Mem, role: Roles, a: Addr)
    requires Valid(m, role) && a in role
    ensures IsPage(a)
  {
  }

  // ---- changing memory ---------------------------------------------------------------------------------------

  function SetEntry(m: Mem, t: Addr, i: nat, e: PTE): Mem
    requires t in m.tables && i < 512
  {
    m.(tables := m.tables[t := m.tables[t][i := e]])
  }

  lemma {:induction false} SetEntryAt(m: Mem, t: Addr, i: nat, e: PTE, u: Addr, j: nat)
    requires t in m.tables && i < 512
    ensures EntryAt(SetEntry(m, t, i, e), u, j) == if u == t && j == i then e else EntryAt(m, u, j)
  {
  }

  /** A change of one leaf entry changes the translation of one page of one table, and no other. */
  lemma {:induction false} SetLeafLookup(m: Mem, role: Roles, t: Addr, i: nat, e: PTE, root: Addr, va: nat)
    requires Valid(m, role) && IsRoot(role, root) && va < MAXVA && i < 512
    requires t in role && role[t].Node? && role[t].level == 0 && t in m.tables && IsRoot(role, role[t].root)
    ensures Lookup(SetEntry(m, t, i, e), root, va)
            == if root == role[t].root && Prefix(0, va) == role[t].prefix && Index(0, va) == i
               then (if IsValid(e) then Some(e) else None) else Lookup(m, root, va)
    ensures LeafTable(SetEntry(m, t, i, e), root, va) == LeafTable(m, root, va)
  {
    hide Valid, Index, Prefix, EntryAt, IsPage, IsValid, GetPhysicalAddr, SetEntry;
    var m' := SetEntry(m, t, i, e);
    Path(m, role, root, va);
    RootIsNode(m, role, root);
    SetEntryAt(m, t, i, e, root, Index(2, va));
    if Down(m, root, Index(2, va)).Some? {
      SetEntryAt(m, t, i, e, Down(m, root, Index(2, va)).value, Index(1, va));
    }
    if LeafTable(m, root, va).Some? {
      SetEntryAt(m, t, i, e, LeafTable(m, root, va).value, Index(0, va));
    }
    if root == role[t].root && Prefix(0, va) == role[t].prefix {
      Reach(m, role, t, root, va);
    }
  }

  lemma {:induction false} SetLeafValid(m: Mem, role: Roles, t: Addr, i: nat, e: PTE)
    requires Valid(m, role) && i < 512
    requires t in role && role[t].Node? && role[t].level == 0 && t in m.tables
    ensures Valid(SetEntry(m, t, i, e), role)
  {
    hide IsPage, IsValid, GetPhysicalAddr, Branch;
    var m' := SetEntry(m, t, i, e);
    forall a | a in role ensures RoleOk(m', role, a) {
      assert RoleOk(m, role, a);
    }
    forall u, j | u in role && role[u].Node? && 0 <= j < 512 ensures EntryOk(m', role, u, j) {
      assert EntryOk(m, role, u, j);
    }
  }

  lemma {:induction false} OwnValid(m: Mem, role: Roles, a: Addr, r: Role)
    requires Valid(m, role) && a in role && (role[a] == Lent || role[a].Owned?) && (r == Lent || r.Owned?)
    ensures Valid(m, role[a := r])
  {
    hide IsPage, IsValid, GetPhysicalAddr, Branch, EntryAt;
    var role' := role[a := r];
    forall b | b in role' ensures IsPage(b) && RoleOk(m, role', b) {
      assert RoleOk(m, role, b);
    }
    forall u, j | u in role' && role'[u].Node? && 0 <= j < 512 ensures EntryOk(m, role', u, j) {
      assert EntryOk(m, role, u, j);
    }
  }

  lemma {:induction false} WriteValid(m: Mem, role: Roles, a: Addr, page: Page)
    requires Valid(m, role)
    ensures Valid(m.(data := m.data[a := page]), role)
  {
    hide IsPage, IsValid, GetPhysicalAddr, Branch;
    var m' := m.(data := m.data[a := page]);
    forall b | b in role ensures RoleOk(m', role, b) {
      assert RoleOk(m, role, b);
    }
    forall u, j | u in role && role[u].Node? && 0 <= j < 512 ensures EntryOk(m', role, u, j) {
      assert EntryOk(m, role, u, j);
    }
  }

  // ---- the allocator -----------------------------------------------------------------------------------------

  lemma {:induction false} PopValid(m: Mem, role: Roles)
    requires Valid(m, role) && m.free != []
    ensures var a := m.free[|m.free| - 1];
            a in role && role[a].Free? && Valid(m.(free := m.free[..|m.free| - 1]), role[a := Lent])
  {
    hide IsPage, IsValid, GetPhysicalAddr, Branch, EntryAt;
    var k := |m.free| - 1;
    var a := m.free[k];
    assert role[m.free[k]] == Free(k);
    var m', role' := m.(free := m.free[..k]), role[a := Lent];
    forall b | b in role' ensures IsPage(b) && RoleOk(m', role', b) {
      assert RoleOk(m, role, b);
      SameEntries(m, m');
    }
    forall u, j | u in role' && role'[u].Node? && 0 <= j < 512 ensures EntryOk(m', role', u, j) {
      assert EntryOk(m, role, u, j);
      SameEntries(m, m');
    }
  }

  lemma {:induction false} SameEntries(m: Mem, m': Mem)
    requires m'.tables == m.tables
    ensures forall t, i :: EntryAt(m', t, i) == EntryAt(m, t, i)
  {
  }

  lemma {:induction false} PushValid(m: Mem, role: Roles, a: Addr)
    requires Valid(m, role) && a in role && role[a] == Lent
    ensures Valid(m.(free := m.free + [a]), role[a := Free(|m.free|)])
  {
    hide IsPage, IsValid, GetPhysicalAddr, Branch, EntryAt;
    var m', role' := m.(free := m.free + [a]), role[a := Free(|m.free|)];
    SameEntries(m, m');
    forall b | b in role' ensures IsPage(b) && RoleOk(m', role', b) {
      assert RoleOk(m, role, b);
    }
    forall k | 0 <= k < |m'.free| ensures m'.free[k] in role' && role'[m'.free[k]] == Free(k) {
      assert k < |m.free| ==> role[m.free[k]] == Free(k);
    }
    forall u, j | u in role' && role'[u].Node? && 0 <= j < 512 ensures EntryOk(m', role', u, j) {
      assert EntryOk(m, role, u, j);
    }
  }

  // ---- growing and pruning the tree --------------------------------------------------------------------------

  function EmptyTable(): (t: Table)
    ensures forall i :: 0 <= i < 512 ==> t[i] == Invalid()
  {
    seq(512, i => Invalid())
  }

  /** A new table without mappings, hung below entry `i` of table `t`. */
  function AddTable(m: Mem, t: Addr, i: nat, a: Addr): Mem
    requires t in m.tables && i < 512
  {
    SetEntry(m.(tables := m.tables[a := EmptyTable()]), t, i, Branch(a))
  }

  function NodeBelow(role: Roles, t: Addr, i: nat): Role
    requires t in role && role[t].Node? && role[t].level > 0
  {
    Node(role[t].root, role[t].level - 1, role[t].prefix * 512 + i, t, i)
  }

  ghost predicate CanAdd(m: Mem, role: Roles, t: Addr, i: nat, a: Addr) {
    && Valid(m, role) && a in role && role[a] == Lent
    && t in role && role[t].Node? && role[t].level > 0 && t in m.tables && i < 512 && !IsValid(EntryAt(m, t, i))
  }

  lemma {:induction false} AddTableAt(m: Mem, t: Addr, i: nat, a: Addr, u: Addr, j: nat)
    requires t in m.tables && i < 512 && a != t
    ensures EntryAt(AddTable(m, t, i, a), u, j)
            == if u == t && j == i then Branch(a) else if u == a then Invalid() else EntryAt(m, u, j)
  {
    hide Branch;
  }

  lemma {:induction false} AddRoleOk(m: Mem, role: Roles, t: Addr, i: nat, a: Addr, b: Addr)
    requires CanAdd(m, role, t, i, a) && b in role
    ensures RoleOk(AddTable(m, t, i, a), role[a := NodeBelow(role, t, i)], b)
  {
    hide IsPage, IsValid, GetPhysicalAddr, Branch, EntryAt, Valid;
    var m', role' := AddTable(m, t, i, a), role[a := NodeBelow(role, t, i)];
    IsOk(m, role, b);
    NodeFacts(m, role, t);
    AddTableAt(m, t, i, a, t, i);
    if role[t].level == 1 {
      NodeFacts(m, role, role[t].parent);
    }
    if b != a && role[b].Node? && role[b].level < 2 {
      AddTableAt(m, t, i, a, role[b].parent, role[b].index);
      PageOf(m, role, b);
      BranchFields(b);
    }
  }

  lemma {:induction false} IsOk(m: Mem, role: Roles, a: Addr)
    requires Valid(m, role) && a in role
    ensures IsPage(a) && RoleOk(m, role, a)
  {
  }

  lemma {:induction false} IsEntryOk(m: Mem, role: Roles, t: Addr, i: nat)
    requires Valid(m, role) && t in role && role[t].Node? && i < 512
    ensures EntryOk(m, role, t, i)
  {
  }

  lemma {:induction false} AddEntryOk(m: Mem, role: Roles, t: Addr, i: nat, a: Addr, u: Addr, j: nat)
    requires CanAdd(m, role, t, i, a) && j < 512
    requires u in role && (u == a || role[u].Node?)
    ensures EntryOk(AddTable(m, t, i, a), role[a := NodeBelow(role, t, i)], u, j)
  {
    hide IsPage, IsValid, GetPhysicalAddr, Branch, EntryAt, Valid;
    AddTableAt(m, t, i, a, u, j);
    InvalidEntry();
    PageOf(m, role, a);
    BranchFields(a);
    if u != a {
      IsEntryOk(m, role, u, j);
    }
  }

  lemma {:induction false} AddTableValid(m: Mem, role: Roles, t: Addr, i: nat, a: Addr)
    requires CanAdd(m, role, t, i, a)
    ensures Valid(AddTable(m, t, i, a), role[a := NodeBelow(role, t, i)])
  {
    hide IsPage, IsValid, GetPhysicalAddr, Branch, EntryAt, RoleOk, EntryOk;
    var m', role' := AddTable(m, t, i, a), role[a := NodeBelow(role, t, i)];
    forall b | b in role' ensures IsPage(b) && RoleOk(m', role', b) {
      PageOf(m, role, b);
      AddRoleOk(m, role, t, i, a, b);
    }
    forall u, j | u in role' && role'[u].Node? && 0 <= j < 512 ensures EntryOk(m', role', u, j) {
      AddEntryOk(m, role, t, i, a, u, j);
    }
  }

  /** A new empty table maps nothing, and no translation of any table changes. */
  lemma {:induction false} AddTableLookup(m: Mem, role: Roles, t: Addr, i: nat, a: Addr, root: Addr, va: nat)
    requires CanAdd(m, role, t, i, a) && IsRoot(role, root) && va < MAXVA
    ensures Lookup(AddTable(m, t, i, a), root, va) == Lookup(m, root, va)
  {
    hide Valid, Index, Prefix, EntryAt, IsPage, IsValid, GetPhysicalAddr, AddTable, Branch;
    var m' := AddTable(m, t, i, a);
    PageOf(m, role, a);
    BranchFields(a);
    InvalidEntry();
    Path(m, role, root, va);
    RootIsNode(m, role, root);
    AddTableAt(m, t, i, a, root, Index(2, va));
    AddTableAt(m, t, i, a, a, Index(1, va));
    AddTableAt(m, t, i, a, a, Index(0, va));
    if Down(m, root, Index(2, va)).Some? {
      AddTableAt(m, t, i, a, Down(m, root, Index(2, va)).value, Index(1, va));
    }
    if LeafTable(m, root, va).Some? {
      AddTableAt(m, t, i, a, LeafTable(m, root, va).value, Index(0, va));
    }
  }

  /** A new root. */
  lemma {:induction false} AddRootValid(m: Mem, role: Roles, a: Addr)
    requires Valid(m, role) && a in role && role[a] == Lent
    ensures Valid(m.(tables := m.tables[a := EmptyTable()]), role[a := Node(a, 2, 0, a, 0)])
  {
    hide IsPage, IsValid, GetPhysicalAddr, Branch;
    var m', role' := m.(tables := m.tables[a := EmptyTable()]), role[a := Node(a, 2, 0, a, 0)];
    InvalidEntry();
    forall b | b in role' ensures IsPage(b) && RoleOk(m', role', b) {
      assert RoleOk(m, role, b);
    }
    forall u, j | u in role' && role'[u].Node? && 0 <= j < 512 ensures EntryOk(m', role', u, j) {
      assert u != a ==> EntryOk(m, role, u, j);
    }
  }

  // ---- ownership ---------------------------------------------------------------------------------------------

  /** Virtual page `page` of a table is mapped to the physical page `a`. */
  ghost predicate Translates(m: Mem, root: Addr, page: nat, a: Addr) {
    Lookup(m, root, page * PGSIZE).Some? && GetPhysicalAddr(Lookup(m, root, page * PGSIZE).value) == a
  }

  ghost predicate OwnedOk(m: Mem, role: Roles, a: Addr)
    requires a in role && role[a].Owned?
  {
    && IsRoot(role, role[a].root) && role[a].page * PGSIZE < MAXVA
    && a in m.data && Translates(m, role[a].root, role[a].page, a)
  }

  /** Every page of the allocator has exactly one role and is where its role says. */
  ghost predicate Sound(m: Mem, role: Roles) {
    Valid(m, role) && forall a :: a in role && role[a].Owned? ==> OwnedOk(m, role, a)
  }

  /** Translation works by whole pages. */
  lemma {:induction false} LookupPage(m: Mem, root: Addr, va: nat)
    ensures Lookup(m, root, va) == Lookup(m, root, va / PGSIZE * PGSIZE)
  {
    hide EntryAt, IsValid, GetPhysicalAddr;
    IndexPage(0, va);
    IndexPage(1, va);
    IndexPage(2, va);
  }

  lemma {:induction false} IndexPage(level: nat, va: nat)
    ensures Index(level, va) == Index(level, va / PGSIZE * PGSIZE)
  {
  }

  /** No translation through any table differs. */
  ghost predicate SameMaps(m: Mem, m': Mem, role: Roles) {
    forall root, va :: IsRoot(role, root) && 0 <= va < MAXVA ==> Lookup(m', root, va) == Lookup(m, root, va)
  }

  /** Where nothing is mapped anew or elsewhere, ownership stays. */
  lemma {:induction false} SoundFrame(m: Mem, role: Roles, m': Mem, role': Roles)
    requires Sound(m, role) && Valid(m', role') && SameMaps(m, m', role)
    requires forall a :: a in role' && role'[a].Owned? ==> a in role && role[a] == role'[a]
    requires forall root :: IsRoot(role, root) ==> IsRoot(role', root)
    requires forall a :: a in m.data ==> a in m'.data
    ensures Sound(m', role')
  {
    hide Valid, Lookup, GetPhysicalAddr;
    forall a | a in role' && role'[a].Owned? ensures OwnedOk(m', role', a) {
      assert OwnedOk(m, role, a);
    }
  }

  /** A page is on the free list exactly if that is its role, and then once; so a page that is a table, is owned by a
      mapping or is lent is not on it. */
  lemma {:induction false} OnFreeListIff(m: Mem, role: Roles, a: Addr)
    requires Valid(m, role) && a in role
    ensures a in m.free <==> role[a].Free?
    ensures forall j, k :: 0 <= j < |m.free| && 0 <= k < |m.free| && m.free[j] == a && m.free[k] == a ==> j == k
  {
    hide IsPage, EntryOk, NodeOk;
    assert RoleOk(m, role, a);
    forall j, k | 0 <= j < |m.free| && 0 <= k < |m.free| && m.free[j] == a && m.free[k] == a ensures j == k {
      assert role[m.free[j]] == Free(j) && role[m.free[k]] == Free(k);
    }
  }
}
