/** The loops over the process table. */
module ProcessTable {
  import opened Options
  import opened Process

  class ProcessTable {
    const procs: array<Proc>
    var nextPid: nat

    constructor (n: nat)
      ensures procs.Length == n && nextPid == 1 && forall i :: 0 <= i < n ==> procs[i] == Deallocated()
    {
      procs := new Proc[n](i => Deallocated());
      nextPid := 1;
    }

    /** Takes the first unused slot and the next process id; fails exactly when no slot is unused. */
    method AllocateProcess(filler: nat) returns (r: Option<nat>)
      modifies this`nextPid, procs
      ensures r.None? <==> forall i :: 0 <= i < procs.Length ==> old(procs[i].state) != Unused
      ensures r.None? ==> procs[..] == old(procs[..]) && nextPid == old(nextPid)
      ensures r.Some? ==>
        && r.value < procs.Length && old(procs[r.value].state) == Unused
        && (forall i :: 0 <= i < r.value ==> old(procs[i].state) != Unused)
        && procs[..] == old(procs[..])[r.value := old(procs[r.value]).(state := Used(filler), pid := old(nextPid))]
        && nextPid == old(nextPid) + 1
    {
      for i := 0 to procs.Length
        invariant procs[..] == old(procs[..]) && nextPid == old(nextPid)
        invariant forall j :: 0 <= j < i ==> old(procs[j].state) != Unused
      {
        var state := Process.Allocate(procs[i].state, filler);
        if state.Some? {
          procs[i] := procs[i].(state := state.value, pid := nextPid);
          nextPid := nextPid + 1;
          return Some(i);
        }
      }
      return None;
    }

    /** Every process but the caller that sleeps on the token becomes runnable; nothing else changes. */
    method Wakeup(token: Token, current: Option<nat>)
      modifies procs
      ensures forall i :: 0 <= i < procs.Length ==>
        procs[i] == if current == Some(i) then old(procs[i])
            else old(procs[i]).(state := Woken(old(procs[i]).state, token))
    {
      for i := 0 to procs.Length
        invariant forall j :: 0 <= j < i ==>
          procs[j] == if current == Some(j) then old(procs[j])
              else old(procs[j]).(state := Woken(old(procs[j]).state, token))
        invariant forall j :: i <= j < procs.Length ==> procs[j] == old(procs[j])
      {
        if current != Some(i) {
          if procs[i].state == Sleeping(token) {
            procs[i] := procs[i].(state := Process.Wakeup(procs[i].state).value);
          }
        }
      }
    }

    /** Marks the first process with the id, and wakes it wherever it sleeps; false exactly if there is none. */
    method Kill(pid: nat) returns (found: bool, ghost at: nat)
      modifies procs
      ensures found <==> exists i :: 0 <= i < procs.Length && old(procs[i].pid) == pid
      ensures !found ==> procs[..] == old(procs[..])
      ensures found ==>
        && at < procs.Length && old(procs[at].pid) == pid && (forall j :: 0 <= j < at ==> old(procs[j].pid) != pid)
        && procs[..] == old(procs[..])[at := old(procs[at]).(killed := true,
          state := if old(procs[at]).state.Sleeping? then Runnable else old(procs[at]).state)]
    {
      for i := 0 to procs.Length
        invariant procs[..] == old(procs[..])
        invariant forall j :: 0 <= j < i ==> old(procs[j].pid) != pid
      {
        if procs[i].pid == pid {
          assert old(procs[i].pid) == pid;
          at := i;
          procs[i] := procs[i].(killed := true);
          if procs[i].state.Sleeping? {
            procs[i] := procs[i].(state := Process.Wakeup(procs[i].state).value);
          }
          found := true;
          return;
        }
      }
      found, at := false, 0;
    }
  }
}
