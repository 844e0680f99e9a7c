/** The acknowledgement copies its order after Insert has let go of the lock. When the copy is the
    order as it was taken in. */
module Acknowledgements {
  import opened Orders
  import opened Identifiers
  import opened Books
  import opened Interleaving
  import opened Effects
  import Races

  /** Move `j` is a locked change to the order. */
  ghost predicate ChangedAt(ms: seq<Move>, j: nat, id: string)
    requires j < |ms|
  {
    ms[j].Step? && Changes(Reached(ms[..j]), ms[j].thread, id)
  }

  ghost predicate Untouched(ms: seq<Move>, k: nat, j: nat, id: string)
    requires j <= |ms|
  {
    forall i: nat :: k < i < j ==> !ChangedAt(ms, i, id)
  }

  /** Move `k` is the insert of thread `t`'s new order, and `t` makes no step up to move `j`. */
  ghost predicate TakenIn(ms: seq<Move>, k: nat, j: nat, t: nat, o: OrderState)
    requires k < j <= |ms|
  {
    var s := Reached(ms[..k]);
    && ms[k] == Step(t) && Accepts(s, t) && s.threads[t].order == o
    && (forall i :: k < i < j ==> ms[i] != Step(t))
  }

  /** The order as the book takes it in. */
  function Fresh(ms: seq<Move>, k: nat, o: OrderState): OrderState
    requires k <= |ms|
  {
    o.(orderID := OrderId(|Reached(ms[..k]).book.ids| + 1), status := New)
  }

  /** Before move `j` the acknowledgement still waits; its order is at or past `first`, and at it
      exactly if nothing has changed it. */
  ghost predicate AckWaits(ms: seq<Move>, k: nat, j: nat, t: nat, id: string, first: OrderState)
    requires j <= |ms|
  {
    var s := Reached(ms[..j]);
    && t < |s.threads| && s.threads[t] == AckRead(id)
    && id in s.book.orders && UpTo(first, s.book.orders[id])
    && (s.book.orders[id] == first <==> Untouched(ms, k, j, id))
  }

  lemma WaitStarts(ms: seq<Move>, k: nat, t: nat, o: OrderState)
    requires k < |ms| && TakenIn(ms, k, k + 1, t, o)
    ensures AckWaits(ms, k, k + 1, t, o.terms.clOrdID, Fresh(ms, k, o))
  {
    hide Before, ChangedAt, OrderId;
    ReachedStep(ms, k);
    Inserts(Reached(ms[..k]), t);
    hide Reached, After, Accepts;
  }

  lemma WaitGoesOn(ms: seq<Move>, k: nat, j: nat, t: nat, id: string, first: OrderState)
    requires k < j < |ms| && ms[j] != Step(t) && AckWaits(ms, k, j, t, id, first)
    ensures AckWaits(ms, k, j + 1, t, id, first)
  {
    hide Reached, After, Changes, BookInv, Before;
    var s := Reached(ms[..j]);
    ReachedStep(ms, j);
    ReachedBook(ms[..j]);
    WaitsThrough(s, ms[j], t, id);
    StepOnward(s, ms[j], id, first);
    hide UpTo;
    assert Untouched(ms, k, j + 1, id) <==> Untouched(ms, k, j, id) && !ChangedAt(ms, j, id);
  }

  lemma {:induction false} AckWaitsThroughout(ms: seq<Move>, k: nat, j: nat, t: nat, o: OrderState)
    requires k < j <= |ms| && TakenIn(ms, k, j, t, o)
    ensures AckWaits(ms, k, j, t, o.terms.clOrdID, Fresh(ms, k, o))
    decreases j
  {
    hide AckWaits, Accepts, Reached;
    if k == j - 1 {
      WaitStarts(ms, k, t, o);
    } else {
      AckWaitsThroughout(ms, k, j - 1, t, o);
      WaitGoesOn(ms, k, j - 1, t, o.terms.clOrdID, Fresh(ms, k, o));
    }
  }

  lemma Inserts(s: State, t: nat)
    requires Accepts(s, t)
    ensures var o, n := s.threads[t].order, After(s, Step(t));
      && |n.threads| == |s.threads| && n.threads[t] == AckRead(o.terms.clOrdID)
      && Has(n.book, o.terms.clOrdID, o.(orderID := OrderId(|s.book.ids| + 1), status := New))
  {
    hide OrderId;
  }

  lemma WaitsThrough(s: State, m: Move, t: nat, id: string)
    requires t < |s.threads| && m != Step(t)
    ensures t < |After(s, m).threads| && After(s, m).threads[t] == s.threads[t]
  {
    hide Run;
    if m.Step? && m.thread < |s.threads| {
      RunMovesOnly(s, m.thread);
    }
  }

  /** One move takes the order on from `first`, away from it for good if it changes the order. */
  lemma StepOnward(s: State, m: Move, id: string, first: OrderState)
    requires BookInv(s) && id in s.book.orders && UpTo(first, s.book.orders[id])
    ensures var n := After(s, m);
      && id in n.book.orders && UpTo(first, n.book.orders[id])
      && (n.book.orders[id] == first <==>
            s.book.orders[id] == first && !(m.Step? && Changes(s, m.thread, id)))
  {
    hide BookInv, Run;
    if m.Step? && m.thread < |s.threads| {
      StepMovesForward(s, m.thread, id);
    }
  }

  /** An acknowledgement shows its order as taken in, New and unexecuted, exactly when no locked change
      to the order came between its Insert and its own read; otherwise it shows what that left. */
  lemma AckIsUntouchedExactlyWhen(ms: seq<Move>, k: nat, a: nat, t: nat, o: OrderState)
    requires k < a < |ms| && ms[a] == Step(t) && TakenIn(ms, k, a, t, o)
    ensures var n, id := Reached(ms[..a + 1]), o.terms.clOrdID;
      && id in Reached(ms[..a]).book.orders
      && t < |n.threads| && n.threads[t] == ReadSilenced(NewAck(Reached(ms[..a]).book.orders[id]), Finish)
      && (n.threads[t].r.order == Fresh(ms, k, o) <==> Untouched(ms, k, a, id))
  {
    AckWaitsThroughout(ms, k, a, t, o);
    ReachedStep(ms, a);
    hide Reached, ChangedAt, TakenIn, UpTo, OrderId;
  }

  // ----- the smallest run with a late copy -----

  function Inserted(o: OrderState): State {
    var taken := o.(orderID := OrderId(1), status := New);
    EMPTY.(book := BookState([o.terms.clOrdID], map[o.terms.clOrdID := taken], 0), threads := [AckRead(o.terms.clOrdID)])
  }

  lemma OrderInserted(o: OrderState)
    requires o.cumQty == 0.0 && o.avgPx == 0.0
    ensures Onward(EMPTY, [Enter(OrderInsert(o)), Step(0)]) == Inserted(o)
  {
    hide OrderId;
    var ms := [Enter(OrderInsert(o)), Step(0)];
    assert ms[1..] == [Step(0)] && ms[1..][1..] == [];
    var s1 := After(EMPTY, ms[0]);
    assert s1 == EMPTY.(threads := [OrderInsert(o)]);
    var s2 := After(s1, Step(0));
    assert s2 == Inserted(o);
    assert Onward(s1, [Step(0)]) == s2;
  }

  /** An order is inserted, a fill of it comes in and is booked, and only then is it acknowledged. */
  function LateCopy(o: OrderState, qty: real, px: real): seq<Move> {
    [Enter(OrderInsert(o)), Step(0)] + [Enter(TradeUpdate(o.terms.clOrdID, qty, px, false)), Step(1)] + [Step(0)]
  }

  /** Any order and any fill of it: the acknowledgement shows the fill, in CumQty and in status. */
  lemma AckCanShowAFill(o: OrderState, qty: real, px: real)
    requires o.cumQty == 0.0 && o.avgPx == 0.0 && 0.0 < qty <= o.terms.orderQty
    ensures var id, s := o.terms.clOrdID, Reached(LateCopy(o, qty, px));
      && |s.threads| == 2 && s.threads[0].ReadSilenced? && id in s.book.orders
      && s.threads[0].r.execType == ExecNew && s.threads[0].r.order == s.book.orders[id]
      && s.threads[0].r.order.cumQty == qty
      && s.threads[0].r.order.status == (if qty == o.terms.orderQty then Filled else PartiallyFilled)
  {
    hide OrderId, Averaged, Onward, Reached, Run;
    var id := o.terms.clOrdID;
    var insert, fill := [Enter(OrderInsert(o)), Step(0)], [Enter(TradeUpdate(id, qty, px, false)), Step(1)];
    OrderInserted(o);
    var s1 := Inserted(o);
    Races.TradeBooked(s1, id, qty, px);
    var s2 := Onward(s1, fill);
    AckReads(s2, 0, id);
    OnwardConcat(EMPTY, insert, fill);
    OnwardConcat(EMPTY, insert + fill, [Step(0)]);
    NothingReached();
    ReachedOnward([], LateCopy(o, qty, px));
    assert [] + LateCopy(o, qty, px) == LateCopy(o, qty, px);
  }

  lemma AckReads(s: State, t: nat, id: string)
    requires t < |s.threads| && s.threads[t] == AckRead(id) && id in s.book.orders
    ensures Onward(s, [Step(t)]) == Goto(s, t, ReadSilenced(NewAck(s.book.orders[id]), Finish))
  {
    hide Onward, NewAck;
    OneOnward(s, Step(t));
  }
}
