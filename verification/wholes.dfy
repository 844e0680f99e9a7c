/** Runs in which every quantity that enters the venue is whole: then so is every quantity that leaves it,
    and the wire, which carries whole quantities, loses nothing. */
module Wholes {
  import opened Decimals
  import opened Orders
  import opened Identifiers
  import opened Books
  import opened Interleaving
  import opened Effects
  import opened Concurrent
  import Wire

  predicate Whole(x: real) {
    OnGrid(x, QTY_SCALE)
  }

  lemma WholeSums(x: real, y: real)
    requires Whole(x) && Whole(y)
    ensures Whole(x + y) && Whole(x - y)
  {
    assert (x + y).Floor == x.Floor + y.Floor;
    assert (x - y).Floor == x.Floor - y.Floor;
  }

  lemma NothingIsWhole()
    ensures Whole(0.0)
  {
  }

  /** What comes in asks for whole quantities; a fill asks for none. */
  predicate WholeMove(m: Move) {
    match m
    case Enter(OrderInsert(o)) => Whole(o.terms.orderQty)
    case Enter(TradeUpdate(_, qty, _, _)) => Whole(qty)
    case _ => true
  }

  predicate WholeOrder(o: OrderState) {
    Whole(o.terms.orderQty) && Whole(o.cumQty)
  }

  ghost predicate WholeBook(b: BookState) {
    forall id :: id in b.orders ==> WholeOrder(b.orders[id])
  }

  predicate WholeReport(r: Report) {
    WholeOrder(r.order) && r.order.Sound() && Whole(r.lastQty)
  }

  predicate WholePc(pc: Pc) {
    match pc
    case TradeUpdate(_, qty, _, _) => Whole(qty)
    case OrderInsert(o) => Whole(o.terms.orderQty) && o.cumQty == 0.0
    case _ => InHand(pc).Some? ==> WholeReport(InHand(pc).value)
  }

  ghost predicate WholeState(s: State) {
    && WholeBook(s.book)
    && (forall u :: 0 <= u < |s.threads| ==> WholePc(s.threads[u]))
    && (forall r :: r in s.oe ==> WholeReport(r))
    && (forall r :: r in s.dc ==> WholeReport(r))
  }

  lemma ApplyStaysWhole(c: Change, o: OrderState, reason: string)
    requires WholeOrder(o) && o.Sound() && Commanded(c) && Apply(c, o).Ok? && (c.Trade? ==> Whole(c.qty))
    ensures var n := Apply(c, o).value; WholeOrder(n) && WholeReport(Describe(c, n, reason))
  {
    hide Whole, Averaged;
    NothingIsWhole();
    if c.Trade? {
      WholeSums(o.cumQty, c.qty);
    }
    ApplyKeepsSound(c, o);
  }

  lemma LockedStaysWhole(s: State, t: nat, l: Locking)
    requires BookInv(s) && WholeBook(s.book) && t < |s.threads| && Commanded(l.change)
    requires l.change.Trade? ==> Whole(l.change.qty)
    ensures var n := Locked(s, t, l.id, l.change, l.reason, l.next);
      WholeBook(n.book) && t < |n.threads| && WholePc(n.threads[t])
  {
    hide Whole, Apply, Describe, BookState.WellKept, PcSound, WholeOrder, WholeReport;
    if s.book.Update(l.id, l.change).Ok? {
      assert WholeOrder(s.book.orders[l.id]);
      ApplyStaysWhole(l.change, s.book.orders[l.id], l.reason);
    }
  }

  lemma LeavesAreWhole(o: OrderState)
    requires WholeOrder(o)
    ensures Whole(o.LeavesQty())
  {
    hide Whole;
    NothingIsWhole();
    WholeSums(o.terms.orderQty, o.cumQty);
  }

  lemma InsertStaysWhole(s: State, t: nat)
    requires BookInv(s) && WholeBook(s.book) && t < |s.threads| && s.threads[t].OrderInsert? && WholePc(s.threads[t])
    ensures var n := Run(s, t); WholeBook(n.book) && WholePc(n.threads[t])
  {
    hide Whole, OrderId, OrderState.Sound, BookInv;
    NothingIsWhole();
  }

  lemma CarrierStaysWhole(s: State, t: nat)
    requires t < |s.threads| && InHand(s.threads[t]).Some? && WholePc(s.threads[t])
    ensures Run(s, t).book.orders == s.book.orders && WholePc(Run(s, t).threads[t])
  {
    hide WholeOrder, Whole, ExecId, OrderState.Sound;
  }

  lemma AckIsWhole(s: State, t: nat)
    requires BookInv(s) && WholeBook(s.book) && t < |s.threads| && s.threads[t].AckRead?
    ensures Run(s, t).book == s.book && WholePc(Run(s, t).threads[t])
  {
    hide WholeOrder, Whole, OrderState.Sound, PcSound, BookState.WellKept;
    NothingIsWhole();
  }

  lemma FillGetIsWhole(s: State, t: nat)
    requires WholeBook(s.book) && t < |s.threads| && s.threads[t].FillGet?
    ensures Run(s, t).book == s.book && WholePc(Run(s, t).threads[t])
  {
    hide WholeOrder, Whole, OrderState.LeavesQty;
    var id := s.threads[t].id;
    if id in s.book.orders {
      LeavesAreWhole(s.book.orders[id]);
    }
  }

  /** Where a thread that changes no order in place goes. */
  lemma OtherStepsStayWhole(s: State, t: nat)
    requires BookInv(s) && WholeBook(s.book) && t < |s.threads| && LockingOf(s.threads[t]).None?
    requires WholePc(s.threads[t])
    ensures var n := Run(s, t); WholeBook(n.book) && t < |n.threads| && WholePc(n.threads[t])
  {
    hide Run, BookInv, WholeReport, WholePc, Whole, WholeOrder;
    RunMovesOnly(s, t);
    if s.threads[t].OrderInsert? {
      InsertStaysWhole(s, t);
    } else if s.threads[t].AckRead? {
      AckIsWhole(s, t);
    } else if InHand(s.threads[t]).Some? {
      CarrierStaysWhole(s, t);
    } else if s.threads[t].FillGet? {
      FillGetIsWhole(s, t);
    } else {
      RestStaysWhole(s, t);
    }
  }

  lemma RestStaysWhole(s: State, t: nat)
    requires t < |s.threads| && LockingOf(s.threads[t]).None? && InHand(s.threads[t]).None?
    requires !s.threads[t].OrderInsert? && !s.threads[t].AckRead? && !s.threads[t].FillGet?
    ensures Run(s, t).book == s.book && WholePc(Run(s, t).threads[t])
  {
    hide BookState.OpenDay, SnapshotIds, WholeReport, Locked;
  }

  lemma StepStaysWhole(s: State, t: nat)
    requires BookInv(s) && WholeState(s) && t < |s.threads|
    ensures WholeState(Run(s, t))
  {
    hide Run, BookInv, Locked, WholeBook, WholeReport, Whole;
    var n := Run(s, t);
    LogsGrow(s, t);
    if LockingOf(s.threads[t]).Some? {
      RunIsLocked(s, t);
      LockedStaysWhole(s, t, LockingOf(s.threads[t]).value);
    } else {
      OtherStepsStayWhole(s, t);
    }
  }

  lemma MoveStaysWhole(s: State, m: Move)
    requires BookInv(s) && WholeState(s) && WholeMove(m)
    ensures WholeState(After(s, m))
  {
    hide Run, BookInv, WholeBook, WholeReport, Whole;
    if m.Step? && m.thread < |s.threads| {
      StepStaysWhole(s, m.thread);
    }
  }

  lemma {:induction false} ReachedWhole(ms: seq<Move>)
    requires forall m :: m in ms ==> WholeMove(m)
    ensures WholeState(Reached(ms))
  {
    hide WholeState, WholeMove, After, BookInv;
    if ms == [] {
      NothingReached();
      EmptyWhole();
    } else {
      var past := ms[..|ms| - 1];
      forall m | m in past ensures WholeMove(m) {
        assert m in ms;
      }
      ReachedWhole(past);
      ReachedBook(past);
      MoveStaysWhole(Reached(past), ms[|ms| - 1]);
    }
  }

  lemma EmptyWhole()
    ensures WholeState(EMPTY)
  {
  }

  lemma LogIsWhole(log: seq<Report>)
    requires forall r :: r in log ==> WholeReport(r)
    ensures WholeQuantities(log)
  {
    forall i | 0 <= i < |log| ensures OnGrid(log[i].lastQty, QTY_SCALE) {
      assert WholeReport(log[i]);
    }
  }

  /** If the quantities that come in are whole, both logs sum to the same on the wire as at the venue, at
      every moment and for every order. */
  lemma WireLosesNothing(ms: seq<Move>, id: string)
    requires forall m :: m in ms ==> WholeMove(m)
    ensures var s := Reached(ms);
      Sum(s.oe, WireTradeOf(id)) == Sum(s.oe, TradeOf(id)) && Sum(s.dc, WireTradeOf(id)) == Sum(s.dc, TradeOf(id))
  {
    hide Reached, WholeReport, WholeBook, WholePc, WholeMove, WholeQuantities;
    ReachedWhole(ms);
    LogIsWhole(Reached(ms).oe);
    LogIsWhole(Reached(ms).dc);
    WholeQuantitiesSurviveTheWire(Reached(ms).oe, id);
    WholeQuantitiesSurviveTheWire(Reached(ms).dc, id);
  }

  /** Once nothing is in flight and nothing was dropped, the LastQty (tag 32) of either log's reports about an
      order sum to the CumQty (tag 14) of any report of the order as booked. */
  lemma WireFillsSumToCumQty(ms: seq<Move>, id: string, r: Report)
    requires forall m :: m in ms ==> WholeMove(m)
    ensures var s := Reached(ms);
      Quiet(s) && s.dropped == [] && id in s.book.orders && r.order == s.book.orders[id] ==>
        Sum(s.oe, WireTradeOf(id)) == Build(r).cumQty == Sum(s.dc, WireTradeOf(id))
  {
    hide Reached, WholeMove, Quiet, Sum, WholePc, WholeReport, Round, OnGrid;
    var s := Reached(ms);
    ReachedWhole(ms);
    WireLosesNothing(ms, id);
    QuietLogsSumToTheBook(ms, id);
    if id in s.book.orders {
      assert WholeOrder(s.book.orders[id]);
      RoundFixesExactlyTheGrid(s.book.orders[id].cumQty, QTY_SCALE);
    }
  }

  /** And on every report about a working order that either session carries, CumQty and LeavesQty add up to
      OrderQty. */
  lemma EveryReportAddsUp(ms: seq<Move>, r: Report)
    requires forall m :: m in ms ==> WholeMove(m)
    ensures var s := Reached(ms);
      (r in s.oe || r in s.dc) && r.order.IsOpen() ==> Build(r).cumQty + Build(r).leavesQty == Build(r).orderQty
  {
    hide Reached, WholeMove, Build, OnGrid, WholePc, OrderState.Sound;
    var s := Reached(ms);
    ReachedWhole(ms);
    if (r in s.oe || r in s.dc) && r.order.IsOpen() {
      assert WholeReport(r);
      Wire.ReportsAddUp(r);
    }
  }
}
