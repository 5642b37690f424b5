/** Dropping a page table: what becomes of its tree. */
module PageDrop {
  import opened Options
  import opened PageTree
  import opened Pte

  ghost predicate IsEmpty(m: Mem, t: Addr, n: nat) {
    forall j :: 0 <= j < n ==> !IsValid(EntryAt(m, t, j))
  }

  /** The table of `root` maps nothing. */
  ghost predicate NoLeaves(m: Mem, role: Roles, root: Addr) {
    forall t :: t in role && role[t].Node? && role[t].root == root && role[t].level == 0 ==> IsEmpty(m, t, 512)
  }

  /** The entry of `t` through which the table `a` hangs, if it does. */
  ghost function Via(role: Roles, a: Addr, t: Addr): Option<nat>
    requires t in role && role[t].Node?
  {
    if a !in role || !role[a].Node? || role[a].root != role[t].root then None
    else if role[a].level + 1 == role[t].level && role[a].parent == t then Some(role[a].index)
    else if role[a].level + 2 == role[t].level && role[a].parent in role && role[role[a].parent].Node?
            && role[role[a].parent].parent == t && role[role[a].parent].level == role[a].level + 1
      then Some(role[role[a].parent].index)
    else None
  }

  ghost predicate Under(role: Roles, a: Addr, t: Addr, n: nat)
    requires t in role && role[t].Node?
  {
    Via(role, a, t).Some? && Via(role, a, t).value < n
  }

  /** Exactly the tables below the first `n` entries of `t` have become free. */
  ghost predicate Freed(role: Roles, role': Roles, t: Addr, n: nat)
    requires t in role && role[t].Node?
  {
    && role'.Keys == role.Keys
    && forall a :: a in role ==> if Under(role, a, t, n) then role'[a].Free? else role'[a] == role[a]
  }

  /** The other tables have not been written to. */
  ghost predicate OthersKept(m: Mem, m': Mem, role: Roles, t: Addr, n: nat)
    requires t in role && role[t].Node?
  {
    forall a :: a in role && role[a].Node? && a in m.tables && a != t && !Under(role, a, t, n) ==>
      a in m'.tables && m'.tables[a] == m.tables[a]
  }

  ghost predicate Hangs(m: Mem, role: Roles, t: Addr, i: nat, a: Addr) {
    && t in role && role[t].Node? && role[t].level > 0 && t in m.tables && i < 512
    && EntryAt(m, t, i) == Branch(a) && a in role && role[a] == NodeBelow(role, t, i)
  }

  /** The entry is cleared after its table has been given back. */
  function Prune(m: Mem, t: Addr, i: nat, a: Addr): Mem
    requires t in m.tables && i < 512
  {
    SetEntry(m.(free := m.free + [a]), t, i, Invalid())
  }

  lemma {:induction false} PruneAt(m: Mem, t: Addr, i: nat, a: Addr, u: Addr, j: nat)
    requires t in m.tables && i < 512
    ensures EntryAt(Prune(m, t, i, a), u, j) == if u == t && j == i then Invalid() else EntryAt(m, u, j)
  {
  }

  lemma {:induction false} BranchInjective(a: Addr, b: Addr)
    requires IsPage(a) && IsPage(b) && Branch(a) == Branch(b)
    ensures a == b
  {
    hide Branch, IsPage, GetPhysicalAddr;
    BranchFields(a);
    BranchFields(b);
  }

  lemma {:induction false} PruneRoleOk(m: Mem, role: Roles, t: Addr, i: nat, a: Addr, b: Addr)
    requires Valid(m, role) && Hangs(m, role, t, i, a) && IsEmpty(m, a, 512) && b in role
    ensures RoleOk(Prune(m, t, i, a), role[a := Free(|m.free|)], b)
  {
    hide IsPage, IsValid, GetPhysicalAddr, Branch, EntryAt, Valid;
    IsOk(m, role, b);
    PageOf(m, role, a);
    BranchFields(b);
    if b != a && role[b].Node? && role[b].level < 2 {
      var p, j := role[b].parent, role[b].index;
      PruneAt(m, t, i, a, p, j);
      if p == t && j == i {
        BranchInjective(a, b);
      }
      assert p != a;
    }
  }

  lemma {:induction false} PruneEntryOk(m: Mem, role: Roles, t: Addr, i: nat, a: Addr, u: Addr, j: nat)
    requires Valid(m, role) && Hangs(m, role, t, i, a) && u in role && u != a && role[u].Node? && j < 512
    ensures EntryOk(Prune(m, t, i, a), role[a := Free(|m.free|)], u, j)
  {
    hide IsPage, IsValid, GetPhysicalAddr, Branch, EntryAt, Valid;
    PruneAt(m, t, i, a, u, j);
    InvalidEntry();
    IsEntryOk(m, role, u, j);
    IsEntryOk(m, role, t, i);
    PageOf(m, role, a);
    BranchFields(a);
  }

  lemma {:induction false} PruneValid(m: Mem, role: Roles, t: Addr, i: nat, a: Addr)
    requires Valid(m, role) && Hangs(m, role, t, i, a) && IsEmpty(m, a, 512)
    ensures Valid(Prune(m, t, i, a), role[a := Free(|m.free|)])
  {
    hide IsPage, IsValid, GetPhysicalAddr, Branch, EntryAt, RoleOk, EntryOk;
    var m', role' := Prune(m, t, i, a), role[a := Free(|m.free|)];
    forall b | b in role' ensures IsPage(b) && RoleOk(m', role', b) {
      PageOf(m, role, b);
      PruneRoleOk(m, role, t, i, a, b);
    }
    forall k | 0 <= k < |m'.free| ensures m'.free[k] in role' && role'[m'.free[k]] == Free(k) {
      assert k < |m.free| ==> role[m.free[k]] == Free(k);
    }
    forall u, j | u in role' && role'[u].Node? && 0 <= j < 512 ensures EntryOk(m', role', u, j) {
      PruneEntryOk(m, role, t, i, a, u, j);
    }
  }

  /** An empty root can be given back. */
  lemma {:induction false} UprootValid(m: Mem, role: Roles, a: Addr)
    requires Valid(m, role) && IsRoot(role, a) && IsEmpty(m, a, 512)
    ensures Valid(m, role[a := Lent])
  {
    hide IsPage, IsValid, GetPhysicalAddr, Branch, EntryAt;
    var role' := role[a := Lent];
    forall b | b in role' ensures IsPage(b) && RoleOk(m, role', b) {
      assert RoleOk(m, role, b);
      BranchFields(b);
    }
    forall u, j | u in role' && role'[u].Node? && 0 <= j < 512 ensures EntryOk(m, role', u, j) {
      assert EntryOk(m, role, u, j);
    }
  }

  /** A valid entry of an inner table has a table hanging from it. */
  lemma {:induction false} EntryHangs(m: Mem, role: Roles, t: Addr, i: nat)
    requires Valid(m, role) && t in role && role[t].Node? && role[t].level > 0 && t in m.tables && i < 512
      && IsValid(EntryAt(m, t, i))
    ensures Hangs(m, role, t, i, GetPhysicalAddr(EntryAt(m, t, i)))
  {
    hide Valid, IsValid, GetPhysicalAddr, Branch, EntryAt;
    IsEntryOk(m, role, t, i);
  }

  // ---- one entry at a time -----------------------------------------------------------------------------------

  /** What hangs through entry `i` is the table it points to, and what hangs below that. */
  lemma {:induction false} ViaEntry(m: Mem, role: Roles, t: Addr, i: nat, b: Addr) returns (p: Addr)
    requires Valid(m, role) && t in role && role[t].Node? && b in role && Via(role, b, t) == Some(i)
    ensures p in role && role[p].Node? && role[p].level + 1 == role[t].level && role[p].parent == t
      && role[p].index == i
    ensures p == b
      || (role[b].Node? && role[b].parent == p && role[b].level + 1 == role[p].level && role[b].root == role[t].root)
    ensures EntryAt(m, t, i) == Branch(p) && IsPage(p)
  {
    hide Valid, IsPage, Branch, EntryAt;
    p := if role[b].level + 1 == role[t].level && role[b].parent == t then b else role[b].parent;
    IsOk(m, role, b);
    IsOk(m, role, p);
    IsOk(m, role, t);
  }

  lemma {:induction false} NotUnderItself(role: Roles, t: Addr, n: nat)
    requires t in role && role[t].Node?
    ensures !Under(role, t, t, n)
  {
  }

  lemma {:induction false} FreedStart(role: Roles, t: Addr)
    requires t in role && role[t].Node?
    ensures Freed(role, role, t, 0)
  {
  }

  lemma {:induction false} FreedSkip(m: Mem, role: Roles, role': Roles, t: Addr, i: nat)
    requires Valid(m, role) && t in role && role[t].Node? && Freed(role, role', t, i) && !IsValid(EntryAt(m, t, i))
    ensures Freed(role, role', t, i + 1)
  {
    hide Valid, IsPage, Branch, EntryAt, IsValid, Via;
    forall a | a in role ensures Via(role, a, t) != Some(i) {
      if Via(role, a, t) == Some(i) {
        var p := ViaEntry(m, role, t, i, a);
        BranchFields(p);
      }
    }
  }

  /** The tables below entry `i` are its own table and those below it. */
  lemma {:induction false} UnderEntry(m: Mem, role: Roles, mid: Roles, t: Addr, i: nat, a: Addr, b: Addr)
    requires Valid(m, role) && Hangs(m, role, t, i, a) && Freed(role, mid, t, i) && b in role && b != a
    requires mid[a] == role[a]
    ensures Via(role, b, t) == Some(i) <==> mid[b] == role[b] && Under(mid, b, a, 512)
  {
    hide Valid, IsPage, Branch, EntryAt;
    NodeFacts(m, role, a);
    if Via(role, b, t) == Some(i) {
      var p := ViaEntry(m, role, t, i, b);
      PageOf(m, role, a);
      BranchInjective(a, p);
      NodeFacts(m, role, b);
    } else if mid[b] == role[b] && Under(mid, b, a, 512) {
      NodeFacts(m, role, t);
      NodeFacts(m, role, b);
    }
  }

  lemma {:induction false} FreedStep(m: Mem, role: Roles, mid: Roles, after: Roles, role': Roles, t: Addr, i: nat,
      a: Addr)
    requires Valid(m, role) && Hangs(m, role, t, i, a) && Freed(role, mid, t, i) && mid[a] == role[a]
    requires Freed(mid, after, a, 512) && a in role' && role'[a].Free? && role' == after[a := role'[a]]
    ensures Freed(role, role', t, i + 1)
  {
    hide Valid, EntryAt, Branch;
    HangsVia(m, role, t, i, a);
    forall b | b in role ensures if Under(role, b, t, i + 1) then role'[b].Free? else role'[b] == role[b] {
      if b != a {
        UnderEntry(m, role, mid, t, i, a, b);
        if Under(role, b, t, i) {
          NotUnder(mid, b, a);
        }
      }
    }
  }

  lemma {:induction false} NotUnder(role: Roles, b: Addr, t: Addr)
    requires t in role && role[t].Node? && b in role && role[b].Free?
    ensures !Under(role, b, t, 512)
  {
  }

  lemma {:induction false} HangsVia(m: Mem, role: Roles, t: Addr, i: nat, a: Addr)
    requires Hangs(m, role, t, i, a)
    ensures Via(role, a, t) == Some(i)
  {
  }

  lemma {:induction false} KeptStep(m: Mem, mid: Mem, after: Mem, role: Roles, roleMid: Roles, t: Addr, i: nat, a: Addr)
    requires Valid(m, role) && Hangs(m, role, t, i, a) && Freed(role, roleMid, t, i) && roleMid[a] == role[a]
    requires OthersKept(m, mid, role, t, i) && OthersKept(mid, after, roleMid, a, 512) && t in after.tables
    ensures OthersKept(m, Prune(after, t, i, a), role, t, i + 1)
  {
    hide Valid;
    forall b | b in role && role[b].Node? && b in m.tables && b != t && !Under(role, b, t, i + 1)
      ensures b in Prune(after, t, i, a).tables && Prune(after, t, i, a).tables[b] == m.tables[b]
    {
      HangsVia(m, role, t, i, a);
      assert b != a;
      UnderEntry(m, role, roleMid, t, i, a, b);
    }
  }

  /** The tables that are left still map nothing. */
  lemma {:induction false} StillNoLeaves(m: Mem, m': Mem, role: Roles, role': Roles, t: Addr, n: nat)
    requires Valid(m, role) && t in role && role[t].Node? && role[t].level > 0 && NoLeaves(m, role, role[t].root)
    requires Freed(role, role', t, n) && OthersKept(m, m', role, t, n)
    ensures NoLeaves(m', role', role[t].root)
  {
    hide Valid, IsValid, Via;
    forall b | b in role' && role'[b].Node? && role'[b].root == role[t].root && role'[b].level == 0
      ensures IsEmpty(m', b, 512) {
      NodeFacts(m, role, b);
      assert IsEmpty(m, b, 512);
      assert m'.tables[b] == m.tables[b];
      forall j | 0 <= j < 512 ensures !IsValid(EntryAt(m', b, j)) {
        assert EntryAt(m', b, j) == EntryAt(m, b, j);
      }
    }
  }

  /** Every table of a root is the root or hangs from it. */
  lemma {:induction false} AllUnderRoot(m: Mem, role: Roles, root: Addr, a: Addr)
    requires Valid(m, role) && IsRoot(role, root) && a in role
    ensures Under(role, a, root, 512) <==> role[a].Node? && role[a].root == root && a != root
  {
    hide Valid, IsPage, Branch, EntryAt;
    NodeFacts(m, role, root);
    if role[a].Node? && role[a].root == root {
      NodeFacts(m, role, a);
      if role[a].level < 2 {
        NodeFacts(m, role, role[a].parent);
        if role[a].level == 0 {
          NodeFacts(m, role, role[role[a].parent].parent);
        }
      }
    }
  }

  /** Translations through a table depend on its own tables only. */
  lemma {:induction false} LookupFrame(m: Mem, m': Mem, role: Roles, root: Addr, va: nat)
    requires Valid(m, role) && IsRoot(role, root) && va < MAXVA
    requires forall a :: a in role && role[a].Node? && role[a].root == root && a in m.tables ==>
      a in m'.tables && m'.tables[a] == m.tables[a]
    ensures Lookup(m', root, va) == Lookup(m, root, va)
  {
    hide Valid, Index, Prefix, IsValid, GetPhysicalAddr;
    RootIsNode(m, role, root);
    Path(m, role, root, va);
  }
}
