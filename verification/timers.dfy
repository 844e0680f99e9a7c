/** Cancel-on-disconnect at the granularity of locks: a timer reads whether its session is back, and
    takes its snapshot of the book some time later. What can happen in between. */
module TimerRaces {
  import opened Orders
  import opened Identifiers
  import opened Books
  import opened Messages
  import opened Interleaving
  import opened Effects
  import Venue

  /** Move `k0` is an armed logout that starts a timer, as thread `t`. */
  ghost predicate TimerStarted(ms: seq<Move>, k0: nat, t: nat, kind: Kind) {
    && k0 < |ms| && ms[k0] == Logout(kind)
    && kind in Reached(ms[..k0]).armed && |Reached(ms[..k0]).threads| == t
  }

  /** Move `k` is the timer's read of its session. */
  ghost predicate ReadAt(ms: seq<Move>, k: nat, t: nat, kind: Kind)
    requires k < |ms|
  {
    var s := Reached(ms[..k]);
    ms[k] == Step(t) && t < |s.threads| && s.threads[t] == TimerOf(kind)
  }

  predicate Cancelling(pc: Pc) {
    || pc.TakeSnapshot? || pc.CancelUpdate? || pc == Done(true)
    || (InHand(pc).Some? && NextOf(pc).Resume?)
  }

  /** Where the timer stands after its read at move `k`, or before it has read. */
  ghost predicate TimerStands(ms: seq<Move>, k0: nat, k: Option<nat>, t: nat, kind: Kind) {
    var s := Reached(ms);
    && t < |s.threads|
    && match k
       case None => s.threads[t] == TimerOf(kind)
       case Some(k) =>
         && k0 < k < |ms| && ReadAt(ms, k, t, kind)
         && if kind in Reached(ms[..k]).loggedOn then s.threads[t] == Done(true) else Cancelling(s.threads[t])
  }

  lemma ReadStep(s: State, t: nat, kind: Kind)
    requires t < |s.threads| && s.threads[t] == TimerOf(kind)
    ensures var pc := Run(s, t).threads[t];
      if kind in s.loggedOn then pc == Done(true) else pc.TakeSnapshot?
  {
  }

  lemma CancelStep(s: State, t: nat)
    requires t < |s.threads| && Cancelling(s.threads[t])
    ensures Cancelling(Run(s, t).threads[t]) && (s.threads[t].Done? ==> Run(s, t) == s)
  {
    hide BookState.Update, Describe, SnapshotIds, BookState.OpenDay, ExecId, BookState.Insert, OrderState.LeavesQty, NewAck;
  }

  lemma WaitsThrough(s: State, m: Move, t: nat)
    requires t < |s.threads| && m != Step(t)
    ensures t < |After(s, m).threads| && After(s, m).threads[t] == s.threads[t]
  {
    hide Run;
    if m.Step? && m.thread < |s.threads| {
      RunMovesOnly(s, m.thread);
    }
  }

  lemma SameRead(ms: seq<Move>, n: nat, k: nat, t: nat, kind: Kind)
    requires k < n <= |ms|
    ensures ReadAt(ms[..n], k, t, kind) == ReadAt(ms, k, t, kind) && ms[..n][..k] == ms[..k]
  {
    hide Reached;
    assert ms[..n][..k] == ms[..k];
  }

  lemma StandsOn(ms: seq<Move>, k0: nat, k: Option<nat>, t: nat, kind: Kind) returns (k': Option<nat>)
    requires ms != [] && k0 < |ms| - 1 && TimerStands(ms[..|ms| - 1], k0, k, t, kind)
    ensures TimerStands(ms, k0, k', t, kind)
  {
    hide Reached, After, Run, Cancelling;
    var n := |ms| - 1;
    var s := Reached(ms[..n]);
    ReachedStep(ms, n);
    assert ms[..n + 1] == ms;
    k' := k;
    if k.Some? {
      SameRead(ms, n, k.value, t, kind);
    }
    if ms[n] != Step(t) {
      WaitsThrough(s, ms[n], t);
    } else if k.None? {
      k' := Some(n);
      Steps(s, t);
      ReadStep(s, t, kind);
      assert ReadAt(ms, n, t, kind);
      SnapshotIsCancelling(Run(s, t).threads[t]);
    } else {
      Steps(s, t);
      DoneIsCancelling(s.threads[t]);
      CancelStep(s, t);
    }
  }

  lemma Steps(s: State, t: nat)
    requires t < |s.threads|
    ensures After(s, Step(t)) == Run(s, t) && |Run(s, t).threads| == |s.threads|
  {
    RunMovesOnly(s, t);
    hide Run;
  }

  lemma SnapshotIsCancelling(pc: Pc)
    ensures pc.TakeSnapshot? ==> Cancelling(pc)
  {
  }

  lemma DoneIsCancelling(pc: Pc)
    ensures pc == Done(true) ==> Cancelling(pc)
  {
  }

  /** The timer's story so far. */
  lemma {:induction false} TimerStory(ms: seq<Move>, k0: nat, t: nat, kind: Kind) returns (k: Option<nat>)
    requires TimerStarted(ms, k0, t, kind)
    ensures TimerStands(ms, k0, k, t, kind)
    decreases |ms|
  {
    hide Reached, TimerStands;
    var n := |ms| - 1;
    if k0 == n {
      k := None;
      TimerStandsAtStart(ms, t, kind);
    } else {
      assert ms[..n][..k0] == ms[..k0];
      k := TimerStory(ms[..n], k0, t, kind);
      k := StandsOn(ms, k0, k, t, kind);
    }
  }

  lemma TimerStandsAtStart(ms: seq<Move>, t: nat, kind: Kind)
    requires ms != [] && TimerStarted(ms, |ms| - 1, t, kind)
    ensures TimerStands(ms, |ms| - 1, None, t, kind)
  {
    hide Reached;
    ReachedStep(ms, |ms| - 1);
    assert ms[..|ms| - 1 + 1] == ms;
  }

  // ----- whether the session is up -----

  /** From move `k` up to move `e` the session came back and was not lost again. */
  ghost predicate Returned(ms: seq<Move>, k: nat, e: nat, kind: Kind)
    requires e <= |ms|
  {
    exists i: nat :: k <= i < e && ms[i] == Logon(kind) && StayedOn(ms, i, e, kind)
  }

  ghost predicate StayedOn(ms: seq<Move>, i: nat, e: nat, kind: Kind)
    requires e <= |ms|
  {
    forall j: nat :: i < j < e ==> ms[j] != Logout(kind)
  }

  lemma FlagStep(s: State, m: Move, kind: Kind)
    ensures kind in After(s, m).loggedOn <==>
      m == Logon(kind) || (kind in s.loggedOn && m != Logout(kind))
  {
    hide Run;
    if m.Step? && m.thread < |s.threads| {
      RunMovesOnly(s, m.thread);
    }
  }

  lemma {:induction false} UpExactlyWhenReturned(ms: seq<Move>, k: nat, e: nat, kind: Kind)
    requires k <= e <= |ms| && kind !in Reached(ms[..k]).loggedOn
    ensures kind in Reached(ms[..e]).loggedOn <==> Returned(ms, k, e, kind)
    decreases e
  {
    hide Reached, After, StayedOn;
    if k < e {
      UpExactlyWhenReturned(ms, k, e - 1, kind);
      ReachedStep(ms, e - 1);
      FlagStep(Reached(ms[..e - 1]), ms[e - 1], kind);
      ReturnedStep(ms, k, e, kind);
    }
  }

  lemma ReturnedStep(ms: seq<Move>, k: nat, e: nat, kind: Kind)
    requires k < e <= |ms|
    ensures Returned(ms, k, e, kind) <==>
      ms[e - 1] == Logon(kind) || (Returned(ms, k, e - 1, kind) && ms[e - 1] != Logout(kind))
  {
    if ms[e - 1] == Logon(kind) {
      assert StayedOn(ms, e - 1, e, kind);
    }
    if i: nat :| k <= i < e - 1 && ms[i] == Logon(kind) && StayedOn(ms, i, e - 1, kind) {
      if ms[e - 1] != Logout(kind) {
        assert StayedOn(ms, i, e, kind);
      }
    }
    if i: nat :| k <= i < e && ms[i] == Logon(kind) && StayedOn(ms, i, e, kind) {
      if i < e - 1 {
        assert StayedOn(ms, i, e - 1, kind);
      }
    }
  }

  // ----- the mass cancel of a session that is back -----

  /** A timer takes its snapshot, or strikes an order, with its session up exactly when the session came
      back after the timer read it as lost, and was not lost again. */
  lemma CancelsWithSessionUpExactlyWhen(ms: seq<Move>, k0: nat, e: nat, t: nat, kind: Kind) returns (k: nat)
    requires TimerStarted(ms, k0, t, kind) && k0 < e < |ms| && ms[e] == Step(t)
    requires t < |Reached(ms[..e]).threads|
    requires Reached(ms[..e]).threads[t].TakeSnapshot? || Reached(ms[..e]).threads[t].CancelUpdate?
    ensures k0 < k < e && ReadAt(ms, k, t, kind) && kind !in Reached(ms[..k]).loggedOn
    ensures kind in Reached(ms[..e]).loggedOn <==> Returned(ms, k + 1, e, kind)
  {
    hide Reached;
    assert ms[..e][..k0] == ms[..k0];
    var at := TimerStory(ms[..e], k0, t, kind);
    assert at.Some?;
    k := at.value;
    SameRead(ms, e, k, t, kind);
    ReachedStep(ms, k);
    FlagStep(Reached(ms[..k]), ms[k], kind);
    UpExactlyWhenReturned(ms, k + 1, e, kind);
  }

  /** And it takes every day order that works at that moment, whenever it came in. */
  lemma SnapshotTakesWhatWorks(ms: seq<Move>, e: nat, t: nat, id: string)
    requires e < |ms| && ms[e] == Step(t)
    requires t < |Reached(ms[..e]).threads| && Reached(ms[..e]).threads[t].TakeSnapshot?
    ensures var n := Reached(ms[..e + 1]);
      && t < |n.threads| && n.threads[t].CancelUpdate?
      && (id in n.threads[t].todo <==> Reached(ms[..e]).book.IsOpenDay(id))
  {
    var s := Reached(ms[..e]);
    ReachedStep(ms, e);
    ReachedBook(ms[..e]);
    BookIsSound(s);
    hide Reached, BookInv, BookState.AllSound, BookState.WellKept, After, Run, SnapshotIds, BookState.OpenDay,
      BookState.IsOpenDay;
    Steps(s, t);
    SnapshotStep(s, t);
    SnapshotNames(s.book, id);
  }

  lemma SnapshotStep(s: State, t: nat)
    requires t < |s.threads| && s.threads[t].TakeSnapshot?
    ensures Run(s, t).threads[t] == CancelUpdate(SnapshotIds(s.book.OpenDay()), s.threads[t].reason)
  {
    hide SnapshotIds, BookState.OpenDay;
  }

  lemma SnapshotNames(b: BookState, id: string)
    requires b.WellKept()
    ensures id in SnapshotIds(b.OpenDay()) <==> b.IsOpenDay(id)
  {
    hide OrderId;
    var os := b.OpenDay();
    var at := OpenDayIsTheFilter(b, |b.ids|);
    var ids := SnapshotIds(os);
    if b.IsOpenDay(id) {
      var i: nat :| i < |b.ids| && b.ids[i] == id;
      assert i in at;
      var k :| 0 <= k < |at| && at[k] == i;
      assert ids[k] == id;
    }
    if k :| 0 <= k < |ids| && ids[k] == id {
      assert os[k] == b.orders[b.ids[at[k]]] && at[k] in at;
      assert b.orders[b.ids[at[k]]].terms.clOrdID == b.ids[at[k]];
    }
  }

  /** An armed session is lost and its timer finds it down; it comes back and enters an order; the timer
      then takes its snapshot. */
  function LateOrder(o: OrderState, kind: Kind): seq<Move> {
    [Arm(kind, true), Logon(kind), Logout(kind), Step(0), Logon(kind), Enter(OrderInsert(o)), Step(1), Step(0)]
  }

  lemma TimerWaits(kind: Kind, ms: seq<Move>)
    requires |ms| >= 3 && ms[0] == Arm(kind, true) && ms[1] == Logon(kind) && ms[2] == Logout(kind)
    ensures Onward(EMPTY, ms[0..]) == Onward(EMPTY.(armed := {kind}, threads := [TimerOf(kind)]), ms[3..])
  {
    hide Run, Onward, Venue.CodReason;
    var s1 := EMPTY.(armed := {kind});
    assert After(EMPTY, ms[0]) == s1;
    OnwardStep(EMPTY, ms, 0);
    var s2 := s1.(loggedOn := {kind});
    assert After(s1, ms[1]) == s2;
    OnwardStep(s1, ms, 1);
    var s3 := s1.(threads := [TimerOf(kind)]);
    assert After(s2, ms[2]) == s3;
    OnwardStep(s2, ms, 2);
  }

  lemma ComesBack(kind: Kind, o: OrderState, ms: seq<Move>)
    requires o.cumQty == 0.0 && o.avgPx == 0.0
    requires |ms| >= 6 && ms[3] == Step(0) && ms[4] == Logon(kind) && ms[5] == Enter(OrderInsert(o))
    ensures Onward(EMPTY.(armed := {kind}, threads := [TimerOf(kind)]), ms[3..])
         == Onward(EMPTY.(armed := {kind}, loggedOn := {kind},
                          threads := [TakeSnapshot(Venue.CodReason(kind)), OrderInsert(o)]), ms[6..])
  {
    hide Onward, Venue.CodReason;
    var s3 := EMPTY.(armed := {kind}, threads := [TimerOf(kind)]);
    var s4 := s3.(threads := [TakeSnapshot(Venue.CodReason(kind))]);
    assert After(s3, ms[3]) == s4 by { assert s3.threads[0 := TakeSnapshot(Venue.CodReason(kind))] == s4.threads; }
    OnwardStep(s3, ms, 3);
    hide Run;
    var s5 := s4.(loggedOn := {kind});
    assert After(s4, ms[4]) == s5;
    OnwardStep(s4, ms, 4);
    var s6 := s5.(threads := [TakeSnapshot(Venue.CodReason(kind)), OrderInsert(o)]);
    assert After(s5, ms[5]) == s6;
    OnwardStep(s5, ms, 5);
    assert s6 == EMPTY.(armed := {kind}, loggedOn := {kind}, threads := s6.threads);
  }

  lemma OrderComesIn(kind: Kind, o: OrderState, ms: seq<Move>)
    requires o.cumQty == 0.0 && o.avgPx == 0.0 && o.IsDay()
    requires |ms| == 8 && ms[6] == Step(1) && ms[7] == Step(0)
    ensures var id, taken := o.terms.clOrdID, o.(orderID := OrderId(1), status := New);
      var s := EMPTY.(armed := {kind}, loggedOn := {kind});
      Onward(s.(threads := [TakeSnapshot(Venue.CodReason(kind)), OrderInsert(o)]), ms[6..])
        == s.(book := BookState([id], map[id := taken], 0),
              threads := [CancelUpdate([id], Venue.CodReason(kind)), AckRead(id)])
  {
    hide Onward, OrderId, Venue.CodReason;
    var id, taken := o.terms.clOrdID, o.(orderID := OrderId(1), status := New);
    var s := EMPTY.(armed := {kind}, loggedOn := {kind});
    var s6 := s.(threads := [TakeSnapshot(Venue.CodReason(kind)), OrderInsert(o)]);
    var s7 := s.(book := BookState([id], map[id := taken], 0), threads := [TakeSnapshot(Venue.CodReason(kind)), AckRead(id)]);
    assert After(s6, ms[6]) == s7;
    OnwardStep(s6, ms, 6);
    OneOpen(s7.book, id, taken);
    SnapshotStep(s7, 0);
    OnwardStep(s7, ms, 7);
    OnwardEnds(After(s7, ms[7]), ms[8..]);
  }

  lemma OneOpen(b: BookState, id: string, o: OrderState)
    requires b.ids == [id] && b.orders == map[id := o] && o.IsOpen() && o.IsDay() && o.terms.clOrdID == id
    ensures SnapshotIds(b.OpenDay()) == [id]
  {
    assert b.OpenDayUpTo(0) == [];
  }

  lemma LateOrderTaken(o: OrderState, kind: Kind)
    requires o.cumQty == 0.0 && o.avgPx == 0.0 && o.IsDay()
    ensures var id, s := o.terms.clOrdID, Reached(LateOrder(o, kind));
      && s.loggedOn == {kind}
      && s.threads == [CancelUpdate([id], Venue.CodReason(kind)), AckRead(id)]
      && Has(s.book, id, o.(orderID := OrderId(1), status := New))
  {
    hide OrderId, Onward, Reached, Venue.CodReason;
    var ms := LateOrder(o, kind);
    TimerWaits(kind, ms);
    ComesBack(kind, o, ms);
    OrderComesIn(kind, o, ms);
    NothingReached();
    ReachedOnward([], ms);
    assert [] + ms == ms && ms[0..] == ms;
  }

  /** So a session that is back, and up, can lose an order it entered after it came back: any day order,
      whatever the window. */
  lemma ReturnedSessionLosesLateOrder(o: OrderState, kind: Kind)
    requires o.cumQty == 0.0 && o.avgPx == 0.0 && o.IsDay()
    ensures var id, ms := o.terms.clOrdID, LateOrder(o, kind);
      var s, n := Reached(ms), Reached(ms + [Step(0)]);
      && kind in s.loggedOn && s.book.IsOpenDay(id)
      && kind in n.loggedOn && id in n.book.orders && n.book.orders[id] == s.book.orders[id].(status := Canceled)
  {
    hide OrderId, LateOrder, Reached;
    LateOrderTaken(o, kind);
    ReachedMore(LateOrder(o, kind), Step(0));
  }
}
