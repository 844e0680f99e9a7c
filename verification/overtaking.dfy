/** Reports are numbered and sent after the lock that made their change is released. When nothing
    overlaps, the last report a session carries about an order is the order as booked. */
module Overtaking {
  import opened Orders
  import opened Books
  import opened Messages
  import opened Interleaving
  import opened Effects
  import opened Concurrent

  /** The step of thread `t` changes order `id` while thread `u` holds an older report about it that it
      has yet to send to the session. */
  predicate Overlaps(s: State, t: nat, u: nat, kind: Kind, id: string) {
    Changes(s, t, id) && u < |s.threads| && u != t && Unsent(s.threads[u], kind, id)
  }

  ghost predicate OverlapAt(ms: seq<Move>, k: nat, kind: Kind, id: string)
    requires k < |ms|
  {
    ms[k].Step? && exists u: nat :: Overlaps(Reached(ms[..k]), ms[k].thread, u, kind, id)
  }

  function LastAbout(log: seq<Report>, id: string): Option<Report> {
    if log == [] then None
    else if About(log[|log| - 1], id) then Some(log[|log| - 1])
    else LastAbout(log[..|log| - 1], id)
  }

  lemma LastAboutAppend(log: seq<Report>, r: Report, id: string)
    ensures LastAbout(log + [r], id) == if About(r, id) then Some(r) else LastAbout(log, id)
  {
    assert (log + [r])[..|log|] == log;
  }

  predicate LastIs(log: seq<Report>, id: string, o: OrderState) {
    LastAbout(log, id).Some? && LastAbout(log, id).value.order == o
  }

  predicate SomeAbout(rs: seq<Report>, id: string) {
    exists r :: r in rs && About(r, id)
  }

  /** The thread will still report the order as it then is, or drop a report about it. */
  predicate Awaits(pc: Pc, kind: Kind, id: string) {
    pc == AckRead(id) || Unsent(pc, kind, id) || Doomed(pc, id)
  }

  ghost predicate SomeAwaits(s: State, kind: Kind, id: string) {
    exists u: nat :: u < |s.threads| && Awaits(s.threads[u], kind, id)
  }

  /** What the thread has yet to send is the order as it is. */
  predicate UpToDate(b: BookState, pc: Pc, kind: Kind, id: string) {
    Unsent(pc, kind, id) ==> Has(b, id, InHand(pc).value.order)
  }

  /** Everything yet to be sent to the session about the order is the order as it is; and so is the
      last report it has, unless more is to come or something was dropped. */
  ghost predicate Current(s: State, kind: Kind, id: string) {
    && (forall u :: 0 <= u < |s.threads| ==> UpToDate(s.book, s.threads[u], kind, id))
    && (id in s.book.orders ==>
          || SomeAwaits(s, kind, id) || SomeAbout(s.dropped, id)
          || LastIs(Log(s, kind), id, s.book.orders[id]))
  }

  /** Thread `t` changes order `id` or reports it: it then holds the order as it is. */
  lemma NewestInHand(s: State, n: State, t: nat, kind: Kind, id: string)
    requires t < |s.threads| && MovesOnly(s, n, t)
    requires UpToDate(n.book, n.threads[t], kind, id) && Awaits(n.threads[t], kind, id)
    requires forall u :: 0 <= u < |s.threads| && u != t ==> UpToDate(n.book, s.threads[u], kind, id)
    ensures Current(n, kind, id)
  {
    hide UpToDate, Awaits, LastIs;
  }

  /** Thread `t` moves on; the order and the last report about it stay as they are. */
  lemma StaysCurrent(s: State, n: State, t: nat, kind: Kind, id: string)
    requires Current(s, kind, id) && t < |s.threads| && MovesOnly(s, n, t)
    requires id in s.book.orders <==> id in n.book.orders
    requires id in s.book.orders ==> n.book.orders[id] == s.book.orders[id]
    requires LastAbout(Log(n, kind), id) == LastAbout(Log(s, kind), id) && s.dropped <= n.dropped
    requires UpToDate(n.book, n.threads[t], kind, id)
    requires id in s.book.orders && Awaits(s.threads[t], kind, id) ==>
      Awaits(n.threads[t], kind, id) || SomeAbout(n.dropped, id)
    ensures Current(n, kind, id)
  {
    hide Awaits, About, LastAbout;
    forall u | 0 <= u < |n.threads| ensures UpToDate(n.book, n.threads[u], kind, id) {
      if u != t {
        assert UpToDate(s.book, s.threads[u], kind, id);
      }
    }
    hide UpToDate;
    if SomeAwaits(s, kind, id) {
      var u: nat :| u < |s.threads| && Awaits(s.threads[u], kind, id);
      assert u != t ==> Awaits(n.threads[u], kind, id);
    }
  }

  lemma UpdateKeepsCurrent(s: State, t: nat, kind: Kind, id: string)
    requires BookInv(s) && Current(s, kind, id) && Updates(s, t)
    requires forall u: nat :: !Overlaps(s, t, u, kind, id)
    ensures Current(Run(s, t), kind, id)
  {
    var n, l := Run(s, t), LockingOf(s.threads[t]).value;
    UpdateEffect(s, t);
    hide BookInv, Run, Updates, UpTo, LastIs;
    if l.id == id {
      forall u: nat | u < |s.threads| && u != t ensures UpToDate(n.book, s.threads[u], kind, id) {
        assert !Overlaps(s, t, u, kind, id);
        assert UpToDate(s.book, s.threads[u], kind, id);
      }
      NewestInHand(s, n, t, kind, id);
    } else {
      StaysCurrent(s, n, t, kind, id);
    }
  }

  lemma AcceptKeepsCurrent(s: State, t: nat, kind: Kind, id: string)
    requires BookInv(s) && Current(s, kind, id) && Accepts(s, t)
    ensures Current(Run(s, t), kind, id)
  {
    var n, x := Run(s, t), s.threads[t].order.terms.clOrdID;
    AcceptTakesIn(s, t);
    RunMovesOnly(s, t);
    hide BookInv, Run;
    if x == id {
      forall u | 0 <= u < |s.threads| ensures UpToDate(n.book, s.threads[u], kind, id) {
        assert UpToDate(s.book, s.threads[u], kind, id);
      }
      NewestInHand(s, n, t, kind, id);
    } else {
      StaysCurrent(s, n, t, kind, id);
    }
  }

  lemma HandKeepsCurrent(s: State, t: nat, kind: Kind, id: string)
    requires BookInv(s) && Current(s, kind, id) && t < |s.threads| && !Updates(s, t) && !Accepts(s, t)
    ensures Current(Run(s, t), kind, id)
  {
    var n, old', new' := Run(s, t), s.threads[t], Run(s, t).threads[t];
    HandsOn(s, t, kind, id);
    assert UpToDate(s.book, old', kind, id);
    if old'.AckRead? && old'.id in s.book.orders {
      BookIsSound(s);
      assert s.book.orders[old'.id].terms.clOrdID == old'.id;
    }
    hide Run, BookInv, BookState.WellKept, BookState.AllSound, Updates, Accepts, LastAbout;
    assert UpToDate(n.book, new', kind, id);
    if InHand(old').Some? && Sends(s, n, kind, InHand(old').value) && Log(n, kind) != Log(s, kind) {
      var r := InHand(old').value;
      LastAboutAppend(Log(s, kind), r, id);
      if About(r, id) {
        CurrentAsSent(s, n, t, kind, id);
      } else {
        StaysCurrent(s, n, t, kind, id);
      }
    } else {
      if Doomed(old', id) {
        assert SomeAbout(n.dropped, id);
      }
      StaysCurrent(s, n, t, kind, id);
    }
  }

  lemma CurrentAsSent(s: State, n: State, t: nat, kind: Kind, id: string)
    requires Current(s, kind, id) && t < |s.threads| && MovesOnly(s, n, t) && n.book.orders == s.book.orders
    requires UpToDate(n.book, n.threads[t], kind, id)
    requires id in n.book.orders && LastIs(Log(n, kind), id, n.book.orders[id])
    ensures Current(n, kind, id)
  {
    hide LastIs;
    forall u | 0 <= u < |n.threads| ensures UpToDate(n.book, n.threads[u], kind, id) {
      if u != t {
        assert UpToDate(s.book, s.threads[u], kind, id);
      }
    }
  }

  lemma OtherMovesKeepCurrent(s: State, m: Move, kind: Kind, id: string)
    requires Current(s, kind, id) && (!m.Step? || m.thread >= |s.threads|)
    ensures Current(After(s, m), kind, id)
  {
    OtherMoves(s, m);
    hide After, About, LastIs;
    var n := After(s, m);
    forall u | 0 <= u < |n.threads| ensures UpToDate(n.book, n.threads[u], kind, id) {
      if u < |s.threads| {
        assert n.threads[..|s.threads|][u] == n.threads[u];
        assert UpToDate(s.book, s.threads[u], kind, id);
      }
    }
    if SomeAwaits(s, kind, id) {
      var u: nat :| u < |s.threads| && Awaits(s.threads[u], kind, id);
      assert n.threads[..|s.threads|][u] == n.threads[u];
    }
  }

  lemma MoveKeepsCurrent(s: State, m: Move, kind: Kind, id: string)
    requires BookInv(s) && Current(s, kind, id)
    requires m.Step? ==> forall u: nat :: !Overlaps(s, m.thread, u, kind, id)
    ensures Current(After(s, m), kind, id)
  {
    hide BookInv, Current, Overlaps, Updates, Accepts, Run;
    if !m.Step? || m.thread >= |s.threads| {
      OtherMovesKeepCurrent(s, m, kind, id);
    } else if Updates(s, m.thread) {
      UpdateKeepsCurrent(s, m.thread, kind, id);
    } else if Accepts(s, m.thread) {
      AcceptKeepsCurrent(s, m.thread, kind, id);
    } else {
      HandKeepsCurrent(s, m.thread, kind, id);
    }
  }

  ghost predicate NeverOverlaps(ms: seq<Move>, kind: Kind, id: string) {
    forall k: nat :: k < |ms| ==> !OverlapAt(ms, k, kind, id)
  }

  lemma SameOverlap(ms: seq<Move>, n: nat, k: nat, kind: Kind, id: string)
    requires k < n <= |ms|
    ensures OverlapAt(ms[..n], k, kind, id) == OverlapAt(ms, k, kind, id)
  {
    hide Reached, Overlaps;
    assert ms[..n][..k] == ms[..k];
  }

  lemma {:induction false} StaysCurrentThroughout(ms: seq<Move>, kind: Kind, id: string)
    requires NeverOverlaps(ms, kind, id)
    ensures Current(Reached(ms), kind, id)
  {
    hide Current, After, BookInv, Overlaps;
    if ms == [] {
      NothingReached();
      NothingIsCurrent(kind, id);
    } else {
      var n := |ms| - 1;
      var s := Reached(ms[..n]);
      forall k: nat | k < n ensures !OverlapAt(ms[..n], k, kind, id) {
        SameOverlap(ms, n, k, kind, id);
      }
      StaysCurrentThroughout(ms[..n], kind, id);
      ReachedBook(ms[..n]);
      ReachedStep(ms, n);
      assert ms[..n + 1] == ms && !OverlapAt(ms, n, kind, id);
      MoveKeepsCurrent(s, ms[n], kind, id);
    }
  }

  lemma NothingIsCurrent(kind: Kind, id: string)
    ensures Current(EMPTY, kind, id)
  {
  }

  /** Forward, over all runs: if no step changes an order while another thread holds a report about it
      that it has yet to send to a session, then once nothing is in flight, and no report about the
      order was dropped, the last report about it on that session is the order as booked. */
  lemma LastReportIsCurrent(ms: seq<Move>, kind: Kind, id: string)
    requires NeverOverlaps(ms, kind, id)
    ensures var s := Reached(ms);
      Quiet(s) && !SomeAbout(s.dropped, id) && id in s.book.orders ==>
        LastIs(Log(s, kind), id, s.book.orders[id])
  {
    hide Reached, NeverOverlaps, LastIs;
    StaysCurrentThroughout(ms, kind, id);
  }
}
