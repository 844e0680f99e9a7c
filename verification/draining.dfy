/** Threads seen to their ends: every command in flight can be finished, one thread after another,
    while any one thread waits. */
module Draining {
  import opened Orders
  import opened Identifiers
  import opened Books
  import opened Interleaving

  /** More than the steps a thread can still make. */
  function Fuel(b: BookState, pc: Pc): nat {
    match pc
    case FillGet(_, _) => 7
    case TradeUpdate(_, _, _, _) => 6
    case CloseUpdate(_, _, _) => 6
    case OrderInsert(_) => 7
    case AckRead(_) => 6
    case ReadLoggedOn(_, _) => 4 + 6 * |b.OpenDay()|
    case TakeSnapshot(_) => 3 + 6 * |b.OpenDay()|
    case CancelUpdate(todo, _) => 2 + 6 * |todo|
    case ReadSilenced(_, k) => 4 + FuelAfter(k)
    case TakeExecID(_, _, k) => 3 + FuelAfter(k)
    case SendOe(_, k) => 2 + FuelAfter(k)
    case SendDc(_, k) => 1 + FuelAfter(k)
    case Done(_) => 0
  }

  function FuelAfter(k: Next): nat {
    match k
    case Finish => 1
    case Resume(todo, _) => 3 + 6 * |todo|
  }

  lemma LockedFuel(s: State, t: nat, id: string, c: Change, reason: string, k: Next)
    requires t < |s.threads|
    ensures var n := Locked(s, t, id, c, reason, k); Fuel(n.book, n.threads[t]) <= 4 + FuelAfter(k)
  {
    hide BookState.Update, Describe;
  }

  lemma StepBurnsFuel(s: State, t: nat)
    requires t < |s.threads| && !s.threads[t].Done?
    ensures Fuel(Run(s, t).book, Run(s, t).threads[t]) < Fuel(s.book, s.threads[t])
  {
    hide Locked, BookState.Insert, BookState.OpenDay, OrderState.LeavesQty, NewAck, ExecId;
    match s.threads[t] {
      case TradeUpdate(id, qty, px, _) => LockedFuel(s, t, id, Trade(qty, px), "", Finish);
      case CloseUpdate(id, to, reason) => LockedFuel(s, t, id, Close(to), reason, Finish);
      case CancelUpdate(todo, reason) =>
        if todo != [] {
          LockedFuel(s, t, todo[0], ForceCancel, reason, Resume(todo[1..], reason));
        }
      case _ =>
    }
  }

  predicate NoNewCommands(more: seq<Move>) {
    forall m :: m in more ==> m.Step? || m == Toggle(false)
  }

  /** Only thread `x` moves. */
  predicate Alone(more: seq<Move>, x: nat) {
    forall m :: m in more ==> m == Step(x)
  }

  /** Only threads other than `u` move. */
  predicate Around(more: seq<Move>, u: nat) {
    forall m :: m in more ==> m.Step? && m.thread != u
  }

  /** A thread that runs alone comes to its end. */
  lemma {:induction false} ThreadEnds(s: State, x: nat) returns (more: seq<Move>)
    requires x < |s.threads|
    ensures Alone(more, x)
    ensures var w := Onward(s, more); |w.threads| == |s.threads| && w.threads[x].Done?
    ensures Onward(s, more).threads == s.threads[x := Onward(s, more).threads[x]]
    decreases Fuel(s.book, s.threads[x])
  {
    hide Run, Fuel;
    if s.threads[x].Done? {
      more := [];
    } else {
      RunMovesOnly(s, x);
      StepBurnsFuel(s, x);
      var rest := ThreadEnds(Run(s, x), x);
      more := [Step(x)] + rest;
    }
  }

  /** The first `n` threads run to their ends while `u` waits. */
  lemma {:induction false} ThreadsEnd(s: State, n: nat, u: nat) returns (more: seq<Move>)
    requires n <= |s.threads| && u < |s.threads|
    ensures Around(more, u)
    ensures var w := Onward(s, more);
      && |w.threads| == |s.threads| && w.threads[u] == s.threads[u]
      && forall v :: 0 <= v < n && v != u ==> w.threads[v].Done?
  {
    hide After;
    if n == 0 {
      more := [];
    } else {
      var first := ThreadsEnd(s, n - 1, u);
      var rest := [];
      if n - 1 != u {
        rest := ThreadEnds(Onward(s, first), n - 1);
      }
      more := first + rest;
      OnwardConcat(s, first, rest);
    }
  }

  type Runs = seq<Move> -> bool

  /** Ways to use the venue: whatever was begun may be broken off, and may be seen to its end, silence
      being lifted. */
  ghost predicate Natural(runs: Runs) {
    && (forall ms, k: nat :: runs(ms) && k <= |ms| ==> runs(ms[..k]))
    && (forall ms, more :: runs(ms) && NoNewCommands(more) ==> runs(ms + more))
  }
}
