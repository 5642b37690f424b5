/** Page table entries: section 4.4 of the RISC-V Privileged Architecture, version 20211203. */
module Pte {
  /** A physical address. */
  datatype Addr = Addr(bits: bv64)

  datatype PTE = PTE(bits: bv64)

  const V: bv64 := 0x01
  const R: bv64 := 0x02
  const W: bv64 := 0x04
  const X: bv64 := 0x08
  const U: bv64 := 0x10

  function Invalid(): PTE {
    PTE(0)
  }

  predicate IsValid(e: PTE) {
    e.bits & V != 0
  }

  predicate IsReadable(e: PTE) {
    e.bits & R != 0
  }

  predicate IsWritable(e: PTE) {
    e.bits & W != 0
  }

  predicate IsExecutable(e: PTE) {
    e.bits & X != 0
  }

  predicate CanUserAccess(e: PTE) {
    e.bits & U != 0
  }

  function SetValid(e: PTE): PTE {
    PTE(e.bits | V)
  }

  /** Bits 10 to 53 are replaced by the page number of `pa`. */
  function SetPhysicalAddr(e: PTE, pa: Addr): PTE {
    var ones: bv64 := 0xFFFF_FFFF_FFFF_FFFF;
    PTE((e.bits & !(ones << 10 >> 10 >> 10 << 10)) | (pa.bits >> 12 << 10))
  }

  function GetPhysicalAddr(e: PTE): Addr {
    Addr(e.bits >> 10 << 12)
  }

  /** `set_flags` asserts that the flags fit. */
  predicate AreFlags(flags: bv64) {
    flags & 0x3ff == flags
  }

  function SetFlags(e: PTE, flags: bv64): PTE {
    PTE((e.bits & !0x3ff) | flags)
  }

  function GetFlags(e: PTE): bv64 {
    e.bits & 0x3ff
  }

  /** The address of a physical page of Sv39: 56 bits, page-aligned. */
  predicate IsPage(pa: Addr) {
    pa.bits & 0xfff == 0 && pa.bits >> 56 == 0
  }

  /** An entry with nothing in its reserved bits 54 to 63. */
  predicate IsPlain(e: PTE) {
    e.bits >> 54 == 0
  }

  /** The address and the flags of an entry can be set and read independently. */
  lemma {:induction false} FieldsIndependent(e: PTE, pa: Addr, flags: bv64)
    requires IsPlain(e) && IsPage(pa) && AreFlags(flags)
    ensures GetPhysicalAddr(SetPhysicalAddr(e, pa)) == pa && GetFlags(SetPhysicalAddr(e, pa)) == GetFlags(e)
    ensures GetFlags(SetFlags(e, flags)) == flags && GetPhysicalAddr(SetFlags(e, flags)) == GetPhysicalAddr(e)
    ensures IsPlain(SetPhysicalAddr(e, pa)) && IsPlain(SetFlags(e, flags))
  {
  }

  /** What `map` writes. */
  function Leaf(pa: Addr, flags: bv64): PTE {
    SetValid(SetFlags(SetPhysicalAddr(Invalid(), pa), flags))
  }

  /** What `search_entry` writes for a new table. */
  function Branch(pa: Addr): PTE {
    SetValid(SetPhysicalAddr(Invalid(), pa))
  }

  lemma {:induction false} LeafFields(pa: Addr, flags: bv64)
    requires IsPage(pa) && AreFlags(flags)
    ensures IsValid(Leaf(pa, flags)) && GetPhysicalAddr(Leaf(pa, flags)) == pa
    ensures GetFlags(Leaf(pa, flags)) == flags | V
    ensures CanUserAccess(Leaf(pa, flags)) <==> flags & U != 0
  {
  }

  lemma {:induction false} BranchFields(pa: Addr)
    requires IsPage(pa)
    ensures IsValid(Branch(pa)) && GetPhysicalAddr(Branch(pa)) == pa && GetFlags(Branch(pa)) == V
    ensures !IsReadable(Branch(pa)) && !IsWritable(Branch(pa)) && !IsExecutable(Branch(pa))
  {
  }

  lemma {:induction false} InvalidEntry()
    ensures !IsValid(Invalid())
  {
  }
}
