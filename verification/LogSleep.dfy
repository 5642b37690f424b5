/** Who sleeps in `Log::start`.  A critical section of the log's lock is one step; a commit gives the lock up while it
    writes, so that its beginning and its end are two steps. */
module LogSleep {
  import opened LogCrash
  import opened LogRuns

  /** The log in memory, and the callers of `start` with whether they sleep. */
  datatype Log = Log(n: nat, outstanding: nat, committing: bool, waiting: map<nat, bool>)

  datatype Turn =
    | Come(t: nat)
    | Try(t: nat)
    | Append
    | Finish
    | Committed
    | Rouse(t: nat)

  ghost predicate Possible(s: Log, turn: Turn) {
    match turn
    case Come(t) => t !in s.waiting
    case Try(t) => t in s.waiting && !s.waiting[t]
    case Append => s.outstanding > 0 && s.n < LOGSIZE
    case Finish => s.outstanding > 0
    case Committed => s.committing
    case Rouse(t) => t in s.waiting
  }

  function AllAwake(waiting: map<nat, bool>): map<nat, bool> {
    map t | t in waiting :: false
  }

  function Next(s: Log, turn: Turn): Log {
    match turn
    case Come(t) => s.(waiting := s.waiting[t := false])
    case Try(t) =>
      if s.committing || IsFull(s.n, s.outstanding) then s.(waiting := s.waiting[t := true])
      else s.(outstanding := s.outstanding + 1, waiting := s.waiting - {t})
    case Append => s.(n := s.n + 1)
    case Finish =>
      if s.outstanding == 1 && s.n > 0 then s.(outstanding := 0, committing := true)
      else if s.outstanding > 0 then s.(outstanding := s.outstanding - 1, waiting := AllAwake(s.waiting))
      else s
    case Committed => s.(n := 0, committing := false, waiting := AllAwake(s.waiting))
    case Rouse(t) => s.(waiting := s.waiting[t := false])
  }

  ghost predicate Inv(s: Log) {
    && (s.committing ==> s.outstanding == 0)
    && (s.outstanding == 0 && !s.committing ==> s.n == 0)
    && forall t :: t in s.waiting && s.waiting[t] ==> s.committing || IsFull(s.n, s.outstanding)
  }

  lemma {:induction false} TurnInv(s: Log, turn: Turn)
    requires Inv(s) && Possible(s, turn)
    ensures Inv(Next(s, turn))
  {
  }

  ghost predicate IsRun(s: Log, turns: seq<Turn>)
    decreases |turns|
  {
    turns == [] || (Possible(s, turns[0]) && IsRun(Next(s, turns[0]), turns[1..]))
  }

  ghost function Reached(s: Log, turns: seq<Turn>): Log
    decreases |turns|
  {
    if turns == [] then s else Reached(Next(s, turns[0]), turns[1..])
  }

  lemma {:induction false} RunInv(s: Log, turns: seq<Turn>)
    requires Inv(s) && IsRun(s, turns)
    ensures Inv(Reached(s, turns))
    decreases |turns|
  {
    hide Inv, Possible, Next;
    if turns != [] {
      TurnInv(s, turns[0]);
      RunInv(Next(s, turns[0]), turns[1..]);
    }
  }

  /** In every run, nobody sleeps in `start` who could enter; and where somebody sleeps, a commit is under way or an
      operation is outstanding, the end of which wakes everybody.  No operation ends during a commit, so that the
      assertion of `end` holds, and when a commit has ended somebody can enter. */
  lemma {:induction false} NobodyWaitsInVain(turns: seq<Turn>)
    requires IsRun(Log(0, 0, false, map[]), turns)
    ensures var r := Reached(Log(0, 0, false, map[]), turns);
            && (forall t :: t in r.waiting && r.waiting[t] ==>
                  (r.committing || IsFull(r.n, r.outstanding)) && (r.committing || r.outstanding > 0))
            && (Possible(r, Finish) ==> !r.committing)
            && (r.committing ==> !IsFull(Next(r, Committed).n, Next(r, Committed).outstanding))
  {
    RunInv(Log(0, 0, false, map[]), turns);
  }
}
