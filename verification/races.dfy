/** And when a change overlaps an older report still to be sent, the session can end up behind the
    book: the older report goes out last. */
module Races {
  import opened Orders
  import opened Identifiers
  import opened Books
  import opened Messages
  import opened AveragePrice
  import opened Interleaving
  import opened Effects
  import opened Overtaking
  import opened Concurrent
  import opened Draining

  /** A report in hand shows its order as it is or as it was; a mass cancel's shows it canceled. */
  ghost predicate HandSound(b: BookState, pc: Pc) {
    InHand(pc).Some? ==>
      var o := InHand(pc).value.order;
      && o.terms.clOrdID in b.orders && UpTo(o, b.orders[o.terms.clOrdID])
      && (NextOf(pc).Resume? ==> o.status == Canceled)
  }

  ghost predicate HandsSound(s: State) {
    forall u :: 0 <= u < |s.threads| ==> HandSound(s.book, s.threads[u])
  }

  lemma HandStaysSound(s: State, t: nat, pc: Pc)
    requires BookInv(s) && t < |s.threads| && HandSound(s.book, pc)
    ensures HandSound(Run(s, t).book, pc)
  {
    hide BookInv, Run;
    if InHand(pc).Some? {
      StepMovesForward(s, t, InHand(pc).value.order.terms.clOrdID);
    }
  }

  lemma OwnHandStaysSound(s: State, t: nat)
    requires BookInv(s) && t < |s.threads| && HandSound(s.book, s.threads[t])
    ensures HandSound(Run(s, t).book, Run(s, t).threads[t])
  {
    var n := Run(s, t);
    if Updates(s, t) {
      UpdateEffect(s, t);
      hide BookInv, Run, Updates, Before;
    } else if Accepts(s, t) {
      AcceptTakesIn(s, t);
    } else {
      HandsOn(s, t, OrderEntry, "");
      BookIsSound(s);
      hide BookInv, Updates, Accepts, BookState.AllSound, Before;
      if InHand(s.threads[t]).Some? {
        NextIsKept(s, t);
      }
    }
  }

  /** The report goes on for the same command. */
  lemma NextIsKept(s: State, t: nat)
    requires t < |s.threads| && InHand(s.threads[t]).Some?
    ensures var new' := Run(s, t).threads[t]; InHand(new').Some? ==> NextOf(new') == NextOf(s.threads[t])
  {
    hide ExecId;
  }

  lemma MoveKeepsHands(s: State, m: Move)
    requires BookInv(s) && HandsSound(s)
    ensures HandsSound(After(s, m))
  {
    var n := After(s, m);
    if m.Step? && m.thread < |s.threads| {
      RunMovesOnly(s, m.thread);
      hide BookInv, Run, HandSound;
      forall u | 0 <= u < |n.threads| ensures HandSound(n.book, n.threads[u]) {
        if u == m.thread {
          OwnHandStaysSound(s, u);
        } else {
          HandStaysSound(s, m.thread, s.threads[u]);
        }
      }
    } else {
      OtherMoves(s, m);
      hide After, UpTo, BookInv;
      forall u | 0 <= u < |n.threads| ensures HandSound(n.book, n.threads[u]) {
        if u < |s.threads| {
          assert n.threads[..|s.threads|][u] == n.threads[u];
        }
      }
    }
  }

  lemma {:induction false} ReachedHands(ms: seq<Move>)
    ensures HandsSound(Reached(ms))
  {
    hide HandsSound, After, BookInv;
    if ms == [] {
      NothingReached();
      assert HandsSound(EMPTY) by { NoHands(); }
    } else {
      ReachedHands(ms[..|ms| - 1]);
      ReachedBook(ms[..|ms| - 1]);
      MoveKeepsHands(Reached(ms[..|ms| - 1]), ms[|ms| - 1]);
    }
  }

  lemma NoHands()
    ensures HandsSound(EMPTY)
  {
  }

  /** The session has the order as it is, or some thread is about to send it that. */
  ghost predicate Covered(s: State, kind: Kind, id: string)
    requires id in s.book.orders
  {
    || (exists r :: r in Log(s, kind) && About(r, id) && r.order == s.book.orders[id])
    || (exists v: nat :: v < |s.threads| && Carries(s, v, kind, id))
  }

  ghost predicate Carries(s: State, v: nat, kind: Kind, id: string)
    requires v < |s.threads| && id in s.book.orders
  {
    Unsent(s.threads[v], kind, id) && InHand(s.threads[v]).value.order == s.book.orders[id]
  }

  /** Thread `u` waits with a report about the order that is out of date. */
  ghost predicate Pinned(s: State, u: nat, kind: Kind, id: string) {
    && !s.silenced && u < |s.threads| && id in s.book.orders
    && Unsent(s.threads[u], kind, id)
    && Before(InHand(s.threads[u]).value.order, s.book.orders[id])
    && Covered(s, kind, id)
  }

  lemma CoveredInHand(s: State, n: State, x: nat, kind: Kind, id: string)
    requires x < |s.threads| && MovesOnly(s, n, x) && InHand(s.threads[x]).None?
    requires id in s.book.orders && Covered(s, kind, id) && Log(n, kind) == Log(s, kind)
    requires Has(n.book, id, s.book.orders[id])
    ensures Covered(n, kind, id)
  {
    hide About;
    if v: nat :| v < |s.threads| && Carries(s, v, kind, id) {
      assert Carries(n, v, kind, id);
    }
  }

  lemma CoveredAsHandedOn(s: State, x: nat, kind: Kind, id: string)
    requires x < |s.threads| && !Updates(s, x) && !Accepts(s, x) && !s.silenced
    requires id in s.book.orders && Covered(s, kind, id)
    ensures Run(s, x).book.orders == s.book.orders && Covered(Run(s, x), kind, id)
  {
    var n := Run(s, x);
    HandsOn(s, x, kind, id);
    hide Run, Updates, Accepts;
    if r :| r in Log(s, kind) && About(r, id) && r.order == s.book.orders[id] {
      assert r in Log(n, kind);
    } else {
      var v: nat :| v < |s.threads| && Carries(s, v, kind, id);
      if v == x && Sends(s, n, kind, InHand(s.threads[x]).value) {
        var r := InHand(s.threads[x]).value;
        assert r in Log(n, kind) && About(r, id);
      } else {
        assert Carries(n, v, kind, id);
      }
    }
  }

  lemma UpdateStaysCovered(s: State, x: nat, kind: Kind, id: string)
    requires BookInv(s) && id in s.book.orders && Covered(s, kind, id) && Updates(s, x)
    ensures id in Run(s, x).book.orders && Covered(Run(s, x), kind, id)
  {
    var n, l := Run(s, x), LockingOf(s.threads[x]).value;
    UpdateEffect(s, x);
    hide BookInv, Run, Updates, UpTo, Covered;
    if l.id == id {
      hide LockingOf;
      assert Carries(n, x, kind, id);
      CarriedIsCovered(n, x, kind, id);
    } else {
      CoveredInHand(s, n, x, kind, id);
    }
  }

  lemma CarriedIsCovered(s: State, v: nat, kind: Kind, id: string)
    requires v < |s.threads| && id in s.book.orders && Carries(s, v, kind, id)
    ensures Covered(s, kind, id)
  {
    hide Carries;
  }

  lemma StaysCovered(s: State, x: nat, kind: Kind, id: string)
    requires BookInv(s) && id in s.book.orders && Covered(s, kind, id) && x < |s.threads| && !s.silenced
    ensures id in Run(s, x).book.orders && Covered(Run(s, x), kind, id)
  {
    hide Covered, Updates, BookState.WellKept, BookState.AllSound;
    if Updates(s, x) {
      UpdateStaysCovered(s, x, kind, id);
    } else if Accepts(s, x) {
      AcceptTakesIn(s, x);
      RunMovesOnly(s, x);
      hide Run, BookInv;
      CoveredInHand(s, Run(s, x), x, kind, id);
    } else {
      hide Run, BookInv, Accepts;
      CoveredAsHandedOn(s, x, kind, id);
    }
  }

  /** Any other thread can go on: the waiting report only falls further behind. */
  lemma StaysPinned(s: State, x: nat, u: nat, kind: Kind, id: string)
    requires BookInv(s) && Pinned(s, u, kind, id) && x < |s.threads| && x != u
    ensures Pinned(Run(s, x), u, kind, id)
  {
    hide BookInv, Run, Covered, Unsent;
    RunMovesOnly(s, x);
    StepMovesForward(s, x, id);
    StaysCovered(s, x, kind, id);
  }

  /** Whatever the other threads do, the waiting report stays behind. */
  lemma {:induction false} PinnedAround(s: State, more: seq<Move>, u: nat, kind: Kind, id: string)
    requires BookInv(s) && Pinned(s, u, kind, id) && Around(more, u)
    ensures Pinned(Onward(s, more), u, kind, id)
    decreases |more|
  {
    hide BookInv, Pinned, Run;
    if more != [] {
      var x := more[0].thread;
      if x < |s.threads| {
        RunKeepsBookInv(s, x);
        StaysPinned(s, x, u, kind, id);
      }
      PinnedAround(After(s, more[0]), more[1..], u, kind, id);
    }
  }

  /** A report goes out on both sessions, or on what is left of them, and its thread is done. */
  ghost predicate SentOut(s: State, w: State, u: nat, kind: Kind, r: Report)
    requires u < |s.threads|
  {
    w.book.orders == s.book.orders && w.threads == s.threads[u := Done(true)] && Sends(s, w, kind, r)
  }

  lemma SecondSend(s: State, u: nat)
    requires u < |s.threads| && s.threads[u].SendDc?
    ensures Run(s, u) == Goto(s, u, AfterReport(s.threads[u].next)).(dc := s.dc + [s.threads[u].r])
  {
    hide AfterReport;
  }

  lemma LastSend(s: State, u: nat)
    requires u < |s.threads| && s.threads[u].SendDc? && s.threads[u].next.Finish?
    ensures Onward(s, [Step(u)]) == s.(threads := s.threads[u := Done(true)], dc := s.dc + [s.threads[u].r])
  {
    hide Onward, Run;
    OneOnward(s, Step(u));
    SecondSend(s, u);
  }

  lemma BothSends(s: State, u: nat)
    requires u < |s.threads| && s.threads[u].SendOe? && s.threads[u].next.Finish?
    ensures var r := s.threads[u].r;
      Onward(s, [Step(u), Step(u)])
        == s.(threads := s.threads[u := Done(true)], oe := s.oe + [r], dc := s.dc + [r])
  {
    hide Onward, Locked, ExecId, BookState.Insert, BookState.OpenDay, SnapshotIds, OrderState.LeavesQty, NewAck;
    var n := Run(s, u);
    OneOnward(s, Step(u));
    OnwardConcat(s, [Step(u)], [Step(u)]);
    LastSend(n, u);
    assert [Step(u)] + [Step(u)] == [Step(u), Step(u)];
    assert n.threads[u := Done(true)] == s.threads[u := Done(true)];
  }

  /** Thread `u` is done and its report, numbered, is on both sessions. */
  function Reported(s: State, u: nat, r: Report): State
    requires u < |s.threads|
  {
    s.(book := s.book.(execSeq := s.book.execSeq + 1), threads := s.threads[u := Done(true)],
       oe := s.oe + [r], dc := s.dc + [r], numbered := s.numbered + [r])
  }

  lemma NumberAndSend(s: State, u: nat) returns (r: Report)
    requires u < |s.threads| && s.threads[u].TakeExecID? && !s.threads[u].silenced && s.threads[u].next.Finish?
    ensures r == s.threads[u].r.(execID := ExecId(s.book.execSeq + 1))
    ensures Onward(s, [Step(u), Step(u), Step(u)]) == Reported(s, u, r)
  {
    hide Onward, Locked, ExecId, BookState.Insert, BookState.OpenDay, SnapshotIds, OrderState.LeavesQty, NewAck;
    var n := Run(s, u);
    r := n.threads[u].r;
    OneOnward(s, Step(u));
    OnwardConcat(s, [Step(u)], [Step(u), Step(u)]);
    BothSends(n, u);
    assert [Step(u)] + [Step(u), Step(u)] == [Step(u), Step(u), Step(u)];
    assert n.threads[u := Done(true)] == s.threads[u := Done(true)];
  }

  lemma WholeReport(s: State, u: nat) returns (r: Report)
    requires u < |s.threads| && s.threads[u].ReadSilenced? && !s.silenced && s.threads[u].next.Finish?
    ensures r == s.threads[u].r.(execID := ExecId(s.book.execSeq + 1))
    ensures Onward(s, [Step(u), Step(u), Step(u), Step(u)]) == Reported(s, u, r)
  {
    hide Onward, Locked, ExecId, BookState.Insert, BookState.OpenDay, SnapshotIds, OrderState.LeavesQty, NewAck;
    var n := Run(s, u);
    OneOnward(s, Step(u));
    OnwardConcat(s, [Step(u)], [Step(u), Step(u), Step(u)]);
    r := NumberAndSend(n, u);
    assert [Step(u)] + [Step(u), Step(u), Step(u)] == [Step(u), Step(u), Step(u), Step(u)];
    assert n.threads[u := Done(true)] == s.threads[u := Done(true)];
  }

  lemma UnsentGoesOut(s: State, u: nat, kind: Kind, id: string) returns (more: seq<Move>, r: Report)
    requires u < |s.threads| && Unsent(s.threads[u], kind, id) && NextOf(s.threads[u]).Finish? && !s.silenced
    ensures NoNewCommands(more) && r.order == InHand(s.threads[u]).value.order
    ensures SentOut(s, Onward(s, more), u, kind, r)
  {
    hide ExecId, Onward, Run;
    match s.threads[u] {
      case ReadSilenced(_, _) =>
        r := WholeReport(s, u);
        more := [Step(u), Step(u), Step(u), Step(u)];
      case TakeExecID(_, _, _) =>
        r := NumberAndSend(s, u);
        more := [Step(u), Step(u), Step(u)];
      case SendOe(_, _) =>
        BothSends(s, u);
        more, r := [Step(u), Step(u)], s.threads[u].r;
      case SendDc(_, _) =>
        LastSend(s, u);
        more, r := [Step(u)], s.threads[u].r;
    }
  }

  /** The last report the session carries about the order is older than one it carried before, which
      is the order as booked. */
  ghost predicate Overtaken(s: State, kind: Kind, id: string) {
    && id in s.book.orders
    && LastAbout(Log(s, kind), id).Some?
    && Before(LastAbout(Log(s, kind), id).value.order, s.book.orders[id])
    && exists r :: r in Log(s, kind) && About(r, id) && r.order == s.book.orders[id]
  }

  /** All others being done, the waiting report goes out last. */
  lemma PinnedGoesOutLast(s: State, u: nat, kind: Kind, id: string) returns (more: seq<Move>)
    requires Pinned(s, u, kind, id) && NextOf(s.threads[u]).Finish?
    requires forall v :: 0 <= v < |s.threads| && v != u ==> s.threads[v].Done?
    ensures NoNewCommands(more)
    ensures Quiet(Onward(s, more)) && Overtaken(Onward(s, more), kind, id)
  {
    var r: Report;
    more, r := UnsentGoesOut(s, u, kind, id);
    hide Onward;
    var w := Onward(s, more);
    LastAboutAppend(Log(s, kind), r, id);
    forall v: nat | v < |s.threads| ensures !Carries(s, v, kind, id) {
    }
    var x :| x in Log(s, kind) && About(x, id) && x.order == s.book.orders[id];
    assert x in Log(w, kind);
  }

  /** Only a successful update changes an order, and it takes it forward. */
  lemma ChangesUpdate(s: State, t: nat, id: string)
    requires BookInv(s) && Changes(s, t, id)
    ensures Updates(s, t) && LockingOf(s.threads[t]).value.id == id
    ensures id in Run(s, t).book.orders && Before(s.book.orders[id], Run(s, t).book.orders[id])
  {
    hide BookState.WellKept, BookState.AllSound, Before, Updates;
    StepMovesForward(s, t, id);
    if Updates(s, t) {
      UpdateEffect(s, t);
      hide Run, BookInv;
    } else if Accepts(s, t) {
      AcceptTakesIn(s, t);
    } else {
      HandsOn(s, t, OrderEntry, id);
    }
  }

  /** Thread `u` holds an out of date report about the order, and `t` the current one. */
  ghost predicate Raced(s: State, t: nat, u: nat, kind: Kind, id: string) {
    && t < |s.threads| && u < |s.threads| && id in s.book.orders
    && Carries(s, t, kind, id)
    && Unsent(s.threads[u], kind, id) && NextOf(s.threads[u]).Finish?
    && Before(InHand(s.threads[u]).value.order, s.book.orders[id])
  }

  lemma FallsBehind(a: OrderState, b: OrderState, c: OrderState)
    requires UpTo(a, b) && Before(b, c)
    ensures Before(a, c) && a.status != Canceled
  {
  }

  lemma OverlapRaces(s: State, t: nat, u: nat, kind: Kind, id: string)
    requires BookInv(s) && HandsSound(s) && Overlaps(s, t, u, kind, id)
    ensures Raced(Run(s, t), t, u, kind, id)
  {
    hide BookInv, Run, Updates, UpTo, Before;
    ChangesUpdate(s, t, id);
    UpdateEffect(s, t);
    assert HandSound(s.book, s.threads[u]);
    hide HandsSound, LockingOf;
    FallsBehind(InHand(s.threads[u]).value.order, s.book.orders[id], Run(s, t).book.orders[id]);
  }

  lemma RacedIsPinned(s: State, t: nat, u: nat, kind: Kind, id: string)
    requires BookInv(s) && Raced(s, t, u, kind, id)
    ensures var n := s.(silenced := false);
      BookInv(n) && u < |n.threads| && Pinned(n, u, kind, id) && NextOf(n.threads[u]).Finish?
  {
    hide BookState.WellKept, BookState.AllSound, PcSound, Before, About;
    assert Carries(s.(silenced := false), t, kind, id);
  }

  /** Converse: whenever a step changes an order while another thread holds a report about it that the
      session has yet to get, the run can end, with no new command and no more silence, with nothing in
      flight and the session's last report about the order older than one before it. */
  lemma OverlapCanEndStale(ms: seq<Move>, t: nat, u: nat, kind: Kind, id: string) returns (more: seq<Move>)
    requires Overlaps(Reached(ms), t, u, kind, id)
    ensures NoNewCommands(more)
    ensures var w := Reached(ms + [Step(t)] + more); Quiet(w) && Overtaken(w, kind, id)
  {
    hide Run, Pinned, BookInv, HandsSound, Overtaken, Reached, Quiet, Raced;
    var s := Reached(ms);
    ReachedBook(ms);
    ReachedHands(ms);
    RunKeepsBookInv(s, t);
    OverlapRaces(s, t, u, kind, id);
    RacedIsPinned(Run(s, t), t, u, kind, id);
    var n := Run(s, t).(silenced := false);
    var others := ThreadsEnd(n, |n.threads|, u);
    PinnedAround(n, others, u, kind, id);
    var last := PinnedGoesOutLast(Onward(n, others), u, kind, id);
    more := [Toggle(false)] + others + last;
    OnwardConcat(n, others, last);
    ReachedMore(ms, Step(t));
    ReachedOnward(ms + [Step(t)], more);
    assert more[1..] == others + last;
  }

  // ----- exactly when -----

  /** What a session has been sent about an order is the order as it is or as it was. */
  ghost predicate LogSound(s: State, kind: Kind) {
    forall r :: r in Log(s, kind) ==> SentSound(s.book, r)
  }

  predicate SentSound(b: BookState, r: Report) {
    r.order.terms.clOrdID in b.orders && UpTo(r.order, b.orders[r.order.terms.clOrdID])
  }

  /** If the session has the order as booked at all, it has it last. */
  ghost predicate LatestLast(s: State, kind: Kind, id: string) {
    id in s.book.orders && (exists r :: r in Log(s, kind) && About(r, id) && r.order == s.book.orders[id]) ==>
      LastIs(Log(s, kind), id, s.book.orders[id])
  }

  lemma StepKeepsLogSound(s: State, t: nat, kind: Kind)
    requires BookInv(s) && HandsSound(s) && LogSound(s, kind) && t < |s.threads|
    ensures LogSound(Run(s, t), kind)
  {
    var n := Run(s, t);
    assert HandSound(s.book, s.threads[t]);
    StepSends(s, t, kind);
    hide BookInv, HandsSound, Run, Before;
    forall r | r in Log(n, kind) ensures SentSound(n.book, r) {
      if r in Log(s, kind) {
        assert SentSound(s.book, r);
      }
      StepMovesForward(s, t, r.order.terms.clOrdID);
    }
  }

  /** A step adds to a log at most the report its thread has in hand. */
  lemma StepSends(s: State, t: nat, kind: Kind)
    requires BookInv(s) && t < |s.threads|
    ensures var n := Run(s, t);
      Log(n, kind) == Log(s, kind) || (InHand(s.threads[t]).Some? && Sends(s, n, kind, InHand(s.threads[t]).value))
  {
    hide BookInv;
    if Updates(s, t) {
      UpdateEffect(s, t);
      hide Run, Updates;
    } else if Accepts(s, t) {
      AcceptTakesIn(s, t);
      hide Run;
    } else {
      HandsOn(s, t, kind, "");
      hide Run, Updates, Accepts;
    }
  }

  /** No report on a log shows an order that is only now reached. */
  lemma NewestIsNew(s: State, o: OrderState, kind: Kind, id: string)
    requires LogSound(s, kind) && id in s.book.orders && Before(s.book.orders[id], o)
    ensures forall r :: r in Log(s, kind) && About(r, id) ==> r.order != o
  {
    forall r | r in Log(s, kind) && About(r, id) ensures r.order != o {
      assert SentSound(s.book, r);
    }
  }

  lemma UpdateKeepsLatestLast(s: State, t: nat, kind: Kind, id: string)
    requires BookInv(s) && Updates(s, t) && LogSound(s, kind) && LatestLast(s, kind, id)
    ensures LatestLast(Run(s, t), kind, id)
  {
    var l := LockingOf(s.threads[t]).value;
    UpdateEffect(s, t);
    var n := Run(s, t);
    hide BookInv, Run, Updates, LockingOf, LogSound, Before, LastIs;
    if l.id == id && n.book.orders[id] != s.book.orders[id] {
      NewestIsNew(s, n.book.orders[id], kind, id);
    }
  }

  lemma AcceptKeepsLatestLast(s: State, t: nat, kind: Kind, id: string)
    requires BookInv(s) && Accepts(s, t) && LogSound(s, kind) && LatestLast(s, kind, id)
    ensures LatestLast(Run(s, t), kind, id)
  {
    AcceptTakesIn(s, t);
    hide BookInv, Run, Before, LastIs;
    if id !in s.book.orders {
      forall r | r in Log(s, kind) ensures !About(r, id) {
        assert SentSound(s.book, r);
      }
    }
  }

  lemma HandKeepsLatestLast(s: State, t: nat, kind: Kind, id: string)
    requires t < |s.threads| && !Updates(s, t) && !Accepts(s, t)
    requires UpToDate(s.book, s.threads[t], kind, id) && LatestLast(s, kind, id)
    ensures LatestLast(Run(s, t), kind, id)
  {
    HandsOn(s, t, kind, id);
    hide Run, Updates, Accepts, LastAbout;
    var n := Run(s, t);
    if Log(n, kind) != Log(s, kind) {
      LastAboutAppend(Log(s, kind), InHand(s.threads[t]).value, id);
    }
  }

  lemma MoveKeepsLatestLast(s: State, m: Move, kind: Kind, id: string)
    requires BookInv(s) && Current(s, kind, id) && LogSound(s, kind) && LatestLast(s, kind, id)
    ensures LatestLast(After(s, m), kind, id)
  {
    hide BookInv, Updates, Accepts, Run, LogSound, LatestLast, UpToDate;
    if !m.Step? || m.thread >= |s.threads| {
      OtherMoves(s, m);
      SameLatest(s, After(s, m), kind, id);
    } else if Updates(s, m.thread) {
      UpdateKeepsLatestLast(s, m.thread, kind, id);
    } else if Accepts(s, m.thread) {
      AcceptKeepsLatestLast(s, m.thread, kind, id);
    } else {
      HandKeepsLatestLast(s, m.thread, kind, id);
    }
  }

  lemma SameLatest(s: State, n: State, kind: Kind, id: string)
    requires LatestLast(s, kind, id) && n.book == s.book && n.oe == s.oe && n.dc == s.dc
    ensures LatestLast(n, kind, id)
  {
    hide LastIs;
  }

  lemma MoveKeepsLogSound(s: State, m: Move, kind: Kind)
    requires BookInv(s) && HandsSound(s) && LogSound(s, kind)
    ensures LogSound(After(s, m), kind)
  {
    hide BookInv, HandsSound, Run, UpTo;
    if m.Step? && m.thread < |s.threads| {
      StepKeepsLogSound(s, m.thread, kind);
    } else {
      OtherMoves(s, m);
    }
  }

  lemma {:induction false} ReachedLogSound(ms: seq<Move>, kind: Kind)
    ensures LogSound(Reached(ms), kind)
  {
    hide HandsSound, After, BookInv, SentSound;
    if ms == [] {
      NothingReached();
    } else {
      var past := ms[..|ms| - 1];
      ReachedLogSound(past, kind);
      ReachedBook(past);
      ReachedHands(past);
      hide LogSound;
      MoveKeepsLogSound(Reached(past), ms[|ms| - 1], kind);
    }
  }

  lemma {:induction false} LatestStaysLast(ms: seq<Move>, kind: Kind, id: string)
    requires NeverOverlaps(ms, kind, id)
    ensures LatestLast(Reached(ms), kind, id)
  {
    hide After, BookInv, OverlapAt, Current, LogSound;
    if ms == [] {
      NothingReached();
    } else {
      var n := |ms| - 1;
      forall k: nat | k < n ensures !OverlapAt(ms[..n], k, kind, id) {
        SameOverlap(ms, n, k, kind, id);
      }
      LatestStaysLast(ms[..n], kind, id);
      StaysCurrentThroughout(ms[..n], kind, id);
      ReachedBook(ms[..n]);
      ReachedLogSound(ms[..n], kind);
      hide LatestLast;
      ReachedStep(ms, n);
      assert ms[..n + 1] == ms;
      MoveKeepsLatestLast(Reached(ms[..n]), ms[n], kind, id);
    }
  }

  /** Without an overlap no report is overtaken, silence or not. */
  lemma NothingIsOvertaken(ms: seq<Move>, kind: Kind, id: string)
    requires NeverOverlaps(ms, kind, id)
    ensures !Overtaken(Reached(ms), kind, id)
  {
    hide Reached, NeverOverlaps, LastAbout;
    LatestStaysLast(ms, kind, id);
  }

  /** Whatever the way the venue is used: some run ends, nothing in flight, with the session's last report
      about the order older than one before it, exactly when in some run a step changes the order while
      another thread holds a report about it that the session has yet to get. */
  lemma OvertakenExactlyWhen(runs: Runs, kind: Kind, id: string)
    requires Natural(runs)
    ensures (exists ms :: runs(ms) && Quiet(Reached(ms)) && Overtaken(Reached(ms), kind, id))
       <==> (exists ms, k: nat :: runs(ms) && k < |ms| && OverlapAt(ms, k, kind, id))
  {
    hide Reached, Overtaken, Quiet, Overlaps;
    if ms: seq<Move>, k: nat :| runs(ms) && k < |ms| && OverlapAt(ms, k, kind, id) {
      var u: nat :| Overlaps(Reached(ms[..k]), ms[k].thread, u, kind, id);
      var more := OverlapCanEndStale(ms[..k], ms[k].thread, u, kind, id);
      assert ms[..k + 1] == ms[..k] + [Step(ms[k].thread)];
      assert runs(ms[..k + 1] + more);
    }
    if ms: seq<Move> :| runs(ms) && Quiet(Reached(ms)) && Overtaken(Reached(ms), kind, id) {
      hide OverlapAt;
      if NeverOverlaps(ms, kind, id) {
        NothingIsOvertaken(ms, kind, id);
      }
    }
  }

  // ----- the smallest such run -----

  /** An order is accepted and acknowledged, and two partial fills of it are booked, one after the other. */
  function TwoBooked(o: OrderState, q1: real, q2: real, px: real): seq<Move> {
    var id := o.terms.clOrdID;
    [Enter(OrderInsert(o)), Step(0), Step(0)] + [Step(0), Step(0), Step(0), Step(0)]
    + [Enter(TradeUpdate(id, q1, px, false)), Step(1)] + [Enter(TradeUpdate(id, q2, px, false)), Step(2)]
  }

  /** The second is reported before the first. */
  function WrongWayRound(o: OrderState, q1: real, q2: real, px: real): seq<Move> {
    TwoBooked(o, q1, q2, px) + [Step(2), Step(2), Step(2), Step(2)] + [Step(1), Step(1), Step(1), Step(1)]
  }

  /** The second is reported between the first's two sends. */
  function Crossed(o: OrderState, q1: real, q2: real, px: real): seq<Move> {
    TwoBooked(o, q1, q2, px) + [Step(1), Step(1), Step(1)] + [Step(2), Step(2), Step(2), Step(2)] + [Step(1)]
  }

  lemma OrderTakenIn(o: OrderState)
    requires o.cumQty == 0.0 && o.avgPx == 0.0
    ensures var id, taken := o.terms.clOrdID, o.(orderID := OrderId(1), status := New);
      Onward(EMPTY, [Enter(OrderInsert(o)), Step(0), Step(0)])
        == EMPTY.(book := BookState([id], map[id := taken], 0), threads := [ReadSilenced(NewAck(taken), Finish)])
  {
    hide OrderId;
    var id, taken := o.terms.clOrdID, o.(orderID := OrderId(1), status := New);
    var ms := [Enter(OrderInsert(o)), Step(0), Step(0)];
    assert ms[1..] == [Step(0), Step(0)] && ms[1..][1..] == [Step(0)];
    var s1 := After(EMPTY, ms[0]);
    assert s1 == EMPTY.(threads := [OrderInsert(o)]);
    var s2 := After(s1, Step(0));
    assert s2 == EMPTY.(book := BookState([id], map[id := taken], 0), threads := [AckRead(id)]);
    var s3 := After(s2, Step(0));
    assert Onward(s2, [Step(0)]) == s3;
  }

  lemma TradeRuns(s: State, t: nat, id: string, qty: real, px: real)
    requires t < |s.threads| && s.threads[t] == TradeUpdate(id, qty, px, false) && qty > 0.0
    requires id in s.book.orders && Apply(Trade(qty, px), s.book.orders[id]).Ok?
    ensures var o := Apply(Trade(qty, px), s.book.orders[id]).value;
      Run(s, t) == s.(book := s.book.(orders := s.book.orders[id := o]),
                      threads := s.threads[t := ReadSilenced(Describe(Trade(qty, px), o, ""), Finish)],
                      fills := s.fills + [Traded(id, Fill(qty, px))])
  {
    hide Apply, Describe;
  }

  /** One partial fill comes in and is booked. */
  lemma TradeBooked(s: State, id: string, qty: real, px: real)
    requires id in s.book.orders && s.book.orders[id].IsOpen() && 0.0 < qty <= s.book.orders[id].LeavesQty()
    ensures var o := Apply(Trade(qty, px), s.book.orders[id]).value;
      Onward(s, [Enter(TradeUpdate(id, qty, px, false)), Step(|s.threads|)])
        == s.(book := s.book.(orders := s.book.orders[id := o]),
              threads := s.threads + [ReadSilenced(Describe(Trade(qty, px), o, ""), Finish)],
              fills := s.fills + [Traded(id, Fill(qty, px))])
  {
    hide Averaged, Run, Describe;
    var t, pc := |s.threads|, TradeUpdate(id, qty, px, false);
    var ms := [Enter(pc), Step(t)];
    var report := ReadSilenced(Describe(Trade(qty, px), Apply(Trade(qty, px), s.book.orders[id]).value, ""), Finish);
    assert ms[1..] == [Step(t)];
    var s1 := s.(threads := s.threads + [pc]);
    assert After(s, Enter(pc)) == s1;
    assert s1.threads[t := report] == s.threads + [report];
    TradeRuns(s1, t, id, qty, px);
    hide Apply;
    assert Onward(s1, [Step(t)]) == Run(s1, t);
  }

  lemma SentWhole(s: State, u: nat) returns (r: Report)
    requires u < |s.threads| && s.threads[u].ReadSilenced? && !s.silenced && s.threads[u].next.Finish?
    ensures r.order == s.threads[u].r.order
    ensures Onward(s, [Step(u), Step(u), Step(u), Step(u)]) == Reported(s, u, r)
  {
    r := WholeReport(s, u);
  }

  /** A report is numbered and sent on the order-entry session, and not yet on the other. */
  lemma HalfSent(s: State, u: nat) returns (r: Report)
    requires u < |s.threads| && s.threads[u].ReadSilenced? && !s.silenced && s.threads[u].next.Finish?
    ensures r.order == s.threads[u].r.order
    ensures Onward(s, [Step(u), Step(u), Step(u)])
      == s.(book := s.book.(execSeq := s.book.execSeq + 1), threads := s.threads[u := SendDc(r, Finish)],
            oe := s.oe + [r], numbered := s.numbered + [r])
  {
    hide ExecId;
    var ms := [Step(u), Step(u), Step(u)];
    var s1 := Run(s, u);
    r := s.threads[u].r.(execID := ExecId(s.book.execSeq + 1));
    var s2 := Run(s1, u);
    assert s2.threads == s.threads[u := SendOe(r, Finish)];
    var s3 := Run(s2, u);
    assert s3.threads == s.threads[u := SendDc(r, Finish)];
    assert ms[1..] == [Step(u), Step(u)] && ms[1..][1..] == [Step(u)];
    assert Onward(s2, [Step(u)]) == s3;
  }

  /** The state with both fills booked and only the acknowledgement reported. */
  ghost predicate BothBooked(s: State, o: OrderState, q1: real, q2: real) {
    var id := o.terms.clOrdID;
    && !s.silenced && s.dropped == [] && |s.oe| == 1 && s.oe == s.dc
    && id in s.book.orders && s.book.orders[id].cumQty == q1 + q2
    && |s.threads| == 3 && s.threads[0].Done? && Holding(s.threads[1]) && Holding(s.threads[2])
    && s.threads[1].r.order.terms == o.terms && s.threads[1].r.order.cumQty == q1
    && s.threads[1].r.order.orderID == s.book.orders[id].orderID
    && s.threads[1].r.order.status == PartiallyFilled
    && s.threads[2].r.order == s.book.orders[id] && s.book.orders[id].terms == o.terms
  }

  predicate Holding(pc: Pc) {
    pc.ReadSilenced? && pc.next == Finish
  }

  lemma TwoBookedReached(o: OrderState, q1: real, q2: real, px: real)
    requires o.cumQty == 0.0 && o.avgPx == 0.0 && q1 > 0.0 && q2 > 0.0 && q1 + q2 <= o.terms.orderQty
    ensures BothBooked(Reached(TwoBooked(o, q1, q2, px)), o, q1, q2)
  {
    hide OrderId, Averaged, Onward, Reached, Run;
    var id := o.terms.clOrdID;
    OrderTakenIn(o);
    var taken, four := [Enter(OrderInsert(o)), Step(0), Step(0)], [Step(0), Step(0), Step(0), Step(0)];
    var s1 := Onward(EMPTY, taken);
    var r0 := SentWhole(s1, 0);
    var s2 := Reported(s1, 0, r0);
    TradeBooked(s2, id, q1, px);
    var t1 := [Enter(TradeUpdate(id, q1, px, false)), Step(1)];
    var s3 := Onward(s2, t1);
    TradeBooked(s3, id, q2, px);
    var t2 := [Enter(TradeUpdate(id, q2, px, false)), Step(2)];
    OnwardConcat(EMPTY, taken, four);
    OnwardConcat(EMPTY, taken + four, t1);
    OnwardConcat(EMPTY, taken + four + t1, t2);
    NothingReached();
    ReachedOnward([], TwoBooked(o, q1, q2, px));
    assert [] + TwoBooked(o, q1, q2, px) == TwoBooked(o, q1, q2, px);
  }

  /** Any order and any two partial fills of it: nothing is in flight, nothing was dropped, and on both
      sessions the report of the second fill stands before that of the first, so that the last report
      about the order is behind the book. */
  lemma LastReportCanBeStale(o: OrderState, q1: real, q2: real, px: real)
    requires o.cumQty == 0.0 && o.avgPx == 0.0 && q1 > 0.0 && q2 > 0.0 && q1 + q2 <= o.terms.orderQty
    ensures var id, s := o.terms.clOrdID, Reached(WrongWayRound(o, q1, q2, px));
      && Quiet(s) && s.dropped == [] && id in s.book.orders && s.book.orders[id].cumQty == q1 + q2
      && s.oe == s.dc && |s.oe| == 3
      && About(s.oe[1], id) && s.oe[1].order == s.book.orders[id]
      && About(s.oe[2], id) && s.oe[2].order.cumQty == q1
      && Overtaken(s, OrderEntry, id) && Overtaken(s, DropCopy, id)
  {
    hide Onward, Reached, TwoBooked;
    var ms := TwoBooked(o, q1, q2, px);
    TwoBookedReached(o, q1, q2, px);
    var s := Reached(ms);
    var four1, four2 := [Step(1), Step(1), Step(1), Step(1)], [Step(2), Step(2), Step(2), Step(2)];
    var r2 := SentWhole(s, 2);
    var r1 := SentWhole(Reported(s, 2, r2), 1);
    ReachedOnward(ms, four2);
    ReachedOnward(ms + four2, four1);
    var w := Reached(WrongWayRound(o, q1, q2, px));
    assert w == Reported(Reported(s, 2, r2), 1, r1);
    LastAboutAppend(s.oe + [r2], r1, o.terms.clOrdID);
    assert w.oe == s.oe + [r2] + [r1] && r2 in w.oe;
  }

  /** And the two sessions can disagree: with nothing in flight and nothing dropped, the last report
      about the order is the booked one on the first session and an older one on the second. */
  lemma SessionsCanDisagree(o: OrderState, q1: real, q2: real, px: real)
    requires o.cumQty == 0.0 && o.avgPx == 0.0 && q1 > 0.0 && q2 > 0.0 && q1 + q2 <= o.terms.orderQty
    ensures var id, s := o.terms.clOrdID, Reached(Crossed(o, q1, q2, px));
      && Quiet(s) && s.dropped == [] && id in s.book.orders && s.book.orders[id].cumQty == q1 + q2
      && LastIs(s.oe, id, s.book.orders[id]) && Overtaken(s, DropCopy, id)
  {
    hide Onward, Reached, TwoBooked, Run;
    var ms := TwoBooked(o, q1, q2, px);
    TwoBookedReached(o, q1, q2, px);
    var s := Reached(ms);
    var three1, four2 := [Step(1), Step(1), Step(1)], [Step(2), Step(2), Step(2), Step(2)];
    var r1 := HalfSent(s, 1);
    var s1 := Onward(s, three1);
    var r2 := SentWhole(s1, 2);
    var s2 := Reported(s1, 2, r2);
    LastSend(s2, 1);
    ReachedOnward(ms, three1);
    ReachedOnward(ms + three1, four2);
    ReachedOnward(ms + three1 + four2, [Step(1)]);
    var w, id := Reached(Crossed(o, q1, q2, px)), o.terms.clOrdID;
    assert w.oe == s.oe + [r1] + [r2] && w.dc == s.dc + [r2] + [r1] && r2 in w.dc;
    LastAboutAppend(s.oe + [r1], r2, id);
    LastAboutAppend(s.dc + [r2], r1, id);
  }
}
