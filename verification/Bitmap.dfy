/** The bitmap that both the disk driver and the file system allocate from. */
module Bitmap {
  import opened Options

  /** The least number of bytes that holds `bits` bits. */
  function RequireBytes(bits: nat): (n: nat)
    requires bits > 0
    ensures 8 * (n - 1) < bits <= 8 * n
  {
    (bits - 1) / 8 + 1
  }

  function Mask(k: nat): bv8
    requires k < 8
  {
    match k
    case 0 => 0x01
    case 1 => 0x02
    case 2 => 0x04
    case 3 => 0x08
    case 4 => 0x10
    case 5 => 0x20
    case 6 => 0x40
    case 7 => 0x80
  }

  lemma {:induction false} MasksApart(j: nat, k: nat)
    requires j < 8 && k < 8
    ensures Mask(j) & Mask(k) == if j == k then Mask(j) else 0
    ensures Mask(k) != 0
  {
    if j != k {
      match j {
        case 0 => case 1 => case 2 => case 3 => case 4 => case 5 => case 6 => case 7 =>
      }
    }
  }

  lemma {:induction false} OneByte(b: bv8, j: nat, k: nat)
    requires j < 8 && k < 8
    ensures (b | Mask(j)) & Mask(k) != 0 <==> j == k || b & Mask(k) != 0
    ensures (b & !Mask(j)) & Mask(k) != 0 <==> j != k && b & Mask(k) != 0
  {
    hide Mask;
    MasksApart(j, k);
    if j == k {
      OrMask(b, Mask(j));
    } else {
      ApartMask(b, Mask(j), Mask(k));
    }
  }

  lemma {:induction false} OrMask(b: bv8, m: bv8)
    requires m != 0
    ensures (b | m) & m != 0 && (b & !m) & m == 0
  {
    assert (b | m) & m == m;
  }

  lemma {:induction false} ApartMask(b: bv8, m: bv8, o: bv8)
    requires m & o == 0
    ensures (b | m) & o == b & o && (b & !m) & o == b & o
  {
  }

  function ByteIndex(i: nat): nat {
    i / 8
  }

  function BitIndex(i: nat): (k: nat)
    ensures k < 8
  {
    i % 8
  }

  lemma {:induction false} Indexes(i: nat, j: nat, n: nat)
    requires i < 8 * n
    ensures ByteIndex(i) < n
    ensures i == j <==> ByteIndex(i) == ByteIndex(j) && BitIndex(i) == BitIndex(j)
  {
  }

  predicate Bit(bytes: seq<bv8>, i: nat) {
    ByteIndex(i) < |bytes| && bytes[ByteIndex(i)] & Mask(BitIndex(i)) != 0
  }

  function Assign(bytes: seq<bv8>, i: nat, value: bool): (r: seq<bv8>)
    requires ByteIndex(i) < |bytes|
    ensures |r| == |bytes|
  {
    var b := bytes[ByteIndex(i)];
    bytes[ByteIndex(i) := if value then b | Mask(BitIndex(i)) else b & !Mask(BitIndex(i))]
  }

  /** Changing one bit of one byte changes no other bit of the map. */
  lemma {:induction false} OneBit(bytes: seq<bv8>, i: nat, j: nat, value: bool)
    requires i < 8 * |bytes| && j < 8 * |bytes| && ByteIndex(i) < |bytes|
    ensures Bit(Assign(bytes, i, value), j) <==> if j == i then value else Bit(bytes, j)
  {
    hide Mask, ByteIndex, BitIndex;
    Indexes(i, j, |bytes|);
    Indexes(j, i, |bytes|);
    OneByte(bytes[ByteIndex(i)], BitIndex(i), BitIndex(j));
  }

  class Bitmap {
    const bits: nat
    const bytes: array<bv8>

    ghost predicate Valid() {
      bits > 0 && bytes.Length == RequireBytes(bits)
    }

    ghost predicate IsSet(i: nat)
      requires Valid() && i < bits
      reads bytes
    {
      Bit(bytes[..], i)
    }

    constructor (bits: nat)
      requires bits > 0
      ensures Valid() && this.bits == bits && fresh(bytes)
      ensures forall i :: 0 <= i < bits ==> !IsSet(i)
    {
      this.bits := bits;
      bytes := new bv8[RequireBytes(bits)](i => 0);
    }

    method Get(i: nat) returns (r: Option<bool>)
      requires Valid()
      ensures r == if i < bits then Some(IsSet(i)) else None
    {
      if i < bits {
        r := Some(bytes[ByteIndex(i)] & Mask(BitIndex(i)) != 0);
      } else {
        r := None;
      }
    }

    method Set(i: nat, value: bool) returns (ok: bool)
      requires Valid()
      modifies bytes
      ensures ok <==> i < bits
      ensures !ok ==> bytes[..] == old(bytes[..])
      ensures ok ==> forall j :: 0 <= j < bits ==> (IsSet(j) <==> if j == i then value else old(IsSet(j)))
    {
      hide Bit, Mask, BitIndex;
      ok := i < bits;
      if ok {
        ghost var s := bytes[..];
        var k := ByteIndex(i);
        if value {
          bytes[k] := bytes[k] | Mask(BitIndex(i));
        } else {
          bytes[k] := bytes[k] & !Mask(BitIndex(i));
        }
        assert bytes[..] == Assign(s, i, value);
        forall j | 0 <= j < bits ensures IsSet(j) <==> if j == i then value else old(IsSet(j)) {
          OneBit(s, i, j, value);
        }
      }
    }

    /** Takes the lowest clear bit; fails exactly when there is none. */
    method Allocate() returns (r: Option<nat>)
      requires Valid()
      modifies bytes
      ensures r.None? <==> forall i :: 0 <= i < bits ==> old(IsSet(i))
      ensures r.None? ==> bytes[..] == old(bytes[..])
      ensures r.Some? ==>
        && r.value < bits && !old(IsSet(r.value))
        && (forall j :: 0 <= j < r.value ==> old(IsSet(j)))
        && (forall j :: 0 <= j < bits ==> (IsSet(j) <==> j == r.value || old(IsSet(j))))
    {
      for i := 0 to bits
        invariant bytes[..] == old(bytes[..])
        invariant forall j :: 0 <= j < i ==> old(IsSet(j))
      {
        var b := Get(i);
        if b == Some(false) {
          var ok := Set(i, true);
          return Some(i);
        }
      }
      return None;
    }

    /** Gives back a taken bit; anything else is an error and changes nothing. */
    method Deallocate(i: nat) returns (ok: bool)
      requires Valid()
      modifies bytes
      ensures ok <==> i < bits && old(IsSet(i))
      ensures !ok ==> bytes[..] == old(bytes[..])
      ensures ok ==> forall j :: 0 <= j < bits ==> (IsSet(j) <==> j != i && old(IsSet(j)))
    {
      var b := Get(i);
      if b == Some(true) {
        ok := Set(i, false);
      } else {
        ok := false;
      }
    }
  }
}
