/** Pipes: a ring buffer, and who sleeps on it. */
module Pipe {
  import opened Arith
  import opened Blocks
  import opened Options

  // ---- the contents ------------------------------------------------------------------------------------------

  /** All bytes ever put in, how many of them have been taken out, and which ends are open. */
  datatype Contents = Contents(input: seq<Byte>, read: nat, readOpen: bool, writeOpen: bool) {
    function Held(): int {
      |input| - read
    }
  }

  datatype WriteResult = Wrote(i: nat) | WriteFailed | WriteSleeps(i: nat)

  /** One critical section of `write`, from index `i` on.  `src` are the bytes that can be read from the caller, at most
      `n` of them; the caller is seen to be killed before the `kill`-th turn. */
  function WriteRun(p: Contents, size: nat, src: seq<Byte>, n: nat, i: nat, kill: Option<nat>): (Contents, WriteResult)
    requires i <= n && i <= |src|
    decreases n - i
  {
    if i == n then (p, Wrote(i))
    else if !p.readOpen || kill == Some(0) then (p, WriteFailed)
    else if |p.input| == p.read + size then (p, WriteSleeps(i))
    else if i == |src| then (p, Wrote(i))
    else WriteRun(p.(input := p.input + [src[i]]), size, src, n, i + 1, if kill.Some? then Some(kill.value - 1)
      else None)
  }

  /** The bytes that a critical section of `read` takes out: up to `n`, one more than `copied` if the copy-out fails
      there. */
  function ReadCount(p: Contents, n: nat, copied: nat): (k: nat)
    requires p.read <= |p.input|
    ensures p.read + k <= |p.input|
  {
    var k := if n <= copied then n else copied + 1;
    if p.Held() < k then p.Held() else k
  }

  predicate ReadBlocks(p: Contents) {
    p.read == |p.input| && p.writeOpen
  }

  class PipeInner {
    const data: array<Byte>
    var read: nat
    var write: nat
    var readOpen: bool
    var writeOpen: bool
    ghost var input: seq<Byte>
    ghost var output: seq<Byte>

    ghost predicate Stored(k: nat)
      requires k < |input| && data.Length > 0
      reads this`input, data
    {
      data[k % data.Length] == input[k]
    }

    /** What has been taken out is a prefix of what has been put in, and the rest is in the buffer. */
    ghost predicate Valid()
      reads this, data
    {
      && data.Length > 0 && read <= write <= read + data.Length && |input| == write && output == input[..read]
      && forall k :: read <= k < write ==> Stored(k)
    }

    ghost function Abs(): Contents
      reads this
    {
      Contents(input, read, readOpen, writeOpen)
    }

    constructor (size: nat)
      requires size > 0
      ensures Valid() && data.Length == size && Abs() == Contents([], 0, true, true) && output == []
    {
      data := new Byte[size](i => 0);
      read, write, readOpen, writeOpen, input, output := 0, 0, true, true, [], [];
    }

    method PutByte(ch: Byte)
      requires Valid() && write < read + data.Length
      modifies this`write, this`input, data
      ensures Valid() && input == old(input) + [ch]
    {
      var index := write % data.Length;
      forall k | read <= k < write ensures k % data.Length != index {
        SlotsApart(data.Length, k, write);
      }
      assert forall k :: read <= k < write ==> Stored(k);
      data[index] := ch;
      input := input + [ch];
      write := write + 1;
      forall k | read <= k < write ensures Stored(k) {
        assert k < old(write) ==> old(Stored(k));
      }
    }

    /** `write` up to the point where it returns or sleeps. */
    method Write(src: seq<Byte>, n: nat, start: nat, kill: Option<nat>) returns (r: WriteResult)
      requires Valid() && start <= n && start <= |src|
      modifies this`write, this`input, data
      ensures Valid()
      ensures (Abs(), r) == WriteRun(old(Abs()), data.Length, src, n, start, kill)
    {
      var i, turns := start, kill;
      while i < n
        invariant Valid() && start <= i <= n && i <= |src|
        invariant read == old(read) && readOpen == old(readOpen) && writeOpen == old(writeOpen)
        invariant WriteRun(Abs(), data.Length, src, n, i, turns) == WriteRun(old(Abs()), data.Length, src, n, start,
          kill)
        decreases n - i
      {
        if !readOpen || turns == Some(0) {
          return WriteFailed;
        }
        if write == read + data.Length {
          return WriteSleeps(i);
        }
        if i == |src| {
          break;
        }
        PutByte(src[i]);
        i := i + 1;
        turns := if turns.Some? then Some(turns.value - 1) else None;
      }
      return Wrote(i);
    }

    method TakeByte() returns (ch: Byte)
      requires Valid() && read < write
      modifies this`read, this`output
      ensures Valid() && read == old(read) + 1 && ch == input[old(read)] && output == old(output) + [ch]
    {
      assert Stored(read);
      ch := data[read % data.Length];
      read := read + 1;
      output := output + [ch];
    }

    /** `read` once there is something to read or nothing more will come; the copy-out fails behind `copied` bytes. */
    method Read(n: nat, copied: nat) returns (bytes: seq<Byte>, total: nat)
      requires Valid() && !ReadBlocks(Abs())
      modifies this`read, this`output
      ensures Valid() && input == old(input)
      ensures read == old(read) + ReadCount(old(Abs()), n, copied)
      ensures bytes == input[old(read)..read] && output == old(output) + bytes
      ensures total == if |bytes| <= copied then |bytes| else copied
    {
      hide Stored;
      bytes, total := [], 0;
      var i := 0;
      while i < n
        invariant Valid() && input == old(input) && read == old(read) + i && i <= n && i <= copied
        invariant total == i && bytes == input[old(read)..read] && output == old(output) + bytes
        decreases n - i
      {
        if read == write {
          break;
        }
        var ch := TakeByte();
        bytes := bytes + [ch];
        if i == copied {
          break;
        }
        total := total + 1;
        i := i + 1;
      }
    }

    /** From now on no write puts anything in, and none sleeps: it fails unless it has nothing left to write. */
    method CloseRead()
      requires Valid() && readOpen
      modifies this`readOpen
      ensures Valid() && Abs() == old(Abs()).(readOpen := false)
      ensures forall src, n: nat, i: nat, kill :: i <= n && i <= |src| ==>
        WriteRun(Abs(), data.Length, src, n, i, kill) == (Abs(), if i == n then Wrote(n) else WriteFailed)
    {
      readOpen := false;
    }

    /** From now on no read sleeps, and reads take out what is left, byte for byte. */
    method CloseWrite()
      requires Valid() && writeOpen
      modifies this`writeOpen
      ensures Valid() && Abs() == old(Abs()).(writeOpen := false)
      ensures !ReadBlocks(Abs())
      ensures forall n: nat, copied: nat :: n <= copied ==>
        ReadCount(Abs(), n, copied) == if write - read < n then write - read else n
    {
      writeOpen := false;
    }
  }
}
