/** The descriptors alone, for every number of them: callers come, run their allocation loop as far as it goes, and give
    back a complete chain, in any order. */
module VirtioPool {
  import opened Virtio

  datatype Move = Arrive(t: nat, args: Args) | Take(t: nat) | GiveBack(t: nat)

  ghost predicate CanMove(s: State, move: Move) {
    match move
    case Arrive(t, _) => t !in s.calls
    case Take(t) => t in s.calls && |s.calls[t].held| < 3
    case GiveBack(t) => t in s.calls && |s.calls[t].held| == 3
  }

  ghost function Moved(s: State, move: Move): State
    requires CanMove(s, move)
  {
    match move
    case Arrive(t, args) => Entered(s, t, args)
    case Take(t) => Grab(s, t)
    case GiveBack(t) => Return(s, t)
  }

  ghost predicate IsRun(s: State, moves: seq<Move>)
    decreases |moves|
  {
    moves == [] || (CanMove(s, moves[0]) && IsRun(Moved(s, moves[0]), moves[1..]))
  }

  ghost function Reached(s: State, moves: seq<Move>): State
    requires IsRun(s, moves)
    decreases |moves|
  {
    if moves == [] then s else Reached(Moved(s, moves[0]), moves[1..])
  }

  lemma {:induction false} MoveKeeps(n: nat, s: State, move: Move)
    requires Owned(n, s) && Counted(n, s) && CanMove(s, move)
    ensures Owned(n, Moved(s, move)) && Counted(n, Moved(s, move))
  {
    hide Owned, Counted, Grab, Return, Entered;
    match move
    case Arrive(t, args) => EnterPool(n, s, t, args);
    case Take(t) =>
      GrabSpec(n, s, t);
      GrabCounted(n, s, t);
    case GiveBack(t) =>
      ReturnOwned(n, s, t);
      ReturnCounted(n, s, t);
  }

  lemma {:induction false} RunKeeps(n: nat, s: State, moves: seq<Move>)
    requires Owned(n, s) && Counted(n, s) && IsRun(s, moves)
    ensures Owned(n, Reached(s, moves)) && Counted(n, Reached(s, moves))
    decreases |moves|
  {
    hide Owned, Counted, Moved, CanMove;
    if moves != [] {
      MoveKeeps(n, s, moves[0]);
      RunKeeps(n, Moved(s, moves[0]), moves[1..]);
    }
  }

  ghost predicate Untouched(n: nat, s: State) {
    Sized(n, s) && (forall i :: 0 <= i < n ==> !s.taken[i]) && s.owner == map[] && s.calls == map[]
  }

  lemma {:induction false} UntouchedCounted(n: nat, s: State)
    requires Untouched(n, s)
    ensures Owned(n, s) && Counted(n, s)
  {
    hide FreeCount;
    AllFree(s.taken);
    assert forall t :: !Partial(s, t);
  }

  /** For every number of descriptors from three on: after any run at most one caller holds a partial chain, of exactly
      `n % 3` descriptors, and either a descriptor is free or some caller holds a complete chain. */
  lemma {:induction false} PoolNeverDeadlocks(n: nat, s: State, moves: seq<Move>)
    requires n >= 3 && Untouched(n, s) && IsRun(s, moves)
    ensures var r := Reached(s, moves);
            && (forall t, u :: Partial(r, t) && Partial(r, u) ==> t == u)
            && (forall t :: Partial(r, t) ==> |r.calls[t].held| == n % 3)
            && (!AllTaken(r.taken) || exists t :: t in r.calls && |r.calls[t].held| == 3)
  {
    hide IsRun, Reached, FreeCount, Owned;
    UntouchedCounted(n, s);
    RunKeeps(n, s, moves);
    var r := Reached(s, moves);
    if AllTaken(r.taken) {
      var t := ChainOutstanding(n, r);
    }
  }
}
