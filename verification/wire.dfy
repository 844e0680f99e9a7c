/** From a command to the fields a session carries: what each command's report says in terms of the
    command, and when the quantities of a report add up. */
module Wire {
  import opened Decimals
  import opened Orders
  import opened Identifiers
  import opened Books
  import opened Messages
  import opened Venue
  import opened Runs
  import MassCancel
  import Reachable

  /** Every session log ended up with one more message, the same on all of them. */
  ghost predicate Announced(v: VenueState, w: VenueState, er: ExecReport) {
    && w.logs.Keys == v.logs.Keys
    && (forall k :: k in v.logs ==> w.logs[k] == v.logs[k] + [Sent(er)])
  }

  /** What a command's report has in common with every other about its order. */
  ghost predicate About(er: ExecReport, o: OrderState) {
    && er.orderID == o.orderID && er.clOrdID == o.terms.clOrdID
    && er.symbol == o.terms.symbol && er.side == o.terms.side
    && er.ordStatus == o.status
    && er.orderQty == Round(o.terms.orderQty, QTY_SCALE)
    && er.cumQty == Round(o.cumQty, QTY_SCALE)
    && er.avgPx == Round(o.avgPx, PX_SCALE)
    && er.price == (if o.terms.price == 0.0 then None else Some(Round(o.terms.price, PX_SCALE)))
    && er.account == (if o.terms.account == "" then None else Some(o.terms.account))
  }

  /** An accepted order is acknowledged on every session with what its sender asked for, under the
      venue's next OrderID and ExecID, nothing of it executed. */
  lemma AcceptanceIsEchoed(v: VenueState, f: OrderFields) returns (er: ExecReport)
    requires !v.silenced && DoNewOrder(v, f).rejection.None?
    ensures Incomplete(f).None? && f.clOrdID.value !in v.book.orders
    ensures Announced(v, DoNewOrder(v, f).state, er)
    ensures er.clOrdID == f.clOrdID.value && er.symbol == f.symbol.value && er.side == f.side.value
    ensures er.orderQty == er.leavesQty == Round(f.orderQty.value, QTY_SCALE)
    ensures er.cumQty == 0.0 && er.avgPx == 0.0 && er.execType == ExecNew && er.ordStatus == New
    ensures er.orderID == OrderId(|v.book.ids| + 1) && er.execID == ExecId(v.book.execSeq + 1)
    ensures er.price == (if f.price.Some? && f.price.value != 0.0 then Some(Round(f.price.value, PX_SCALE)) else None)
    ensures er.account == (if f.account == Some("") then None else f.account)
    ensures er.lastQty.None? && er.lastPx.None? && er.text.None? && er.restatement.None?
  {
    hide ExecId, OrderId, BookState.WellKept;
    RoundFixesUnits(0, QTY_SCALE);
    RoundFixesUnits(0, PX_SCALE);
    hide Round;
    var w := DoNewOrder(v, f).state;
    er := Build(w.issued[|v.issued|].report);
  }

  /** A trade is announced with its own quantity and price next to the order's new totals. */
  lemma TradeIsAnnounced(v: VenueState, id: string, qty: real, px: real) returns (er: ExecReport)
    requires !v.silenced && DoPartial(v, id, qty, px).error.None?
    ensures id in v.book.orders && id in DoPartial(v, id, qty, px).state.book.orders
    ensures var o, n := v.book.orders[id], DoPartial(v, id, qty, px).state.book.orders[id];
      && Announced(v, DoPartial(v, id, qty, px).state, er) && About(er, n)
      && er.execType == ExecTrade && er.execID == ExecId(v.book.execSeq + 1)
      && er.lastQty == Some(Round(qty, QTY_SCALE)) && er.lastPx == Some(Round(px, PX_SCALE))
      && er.cumQty == Round(o.cumQty + qty, QTY_SCALE)
      && er.leavesQty == Round(o.terms.orderQty - o.cumQty - qty, QTY_SCALE)
      && er.text.None? && er.restatement.None?
  {
    hide ExecId, OrderId, BookState.WellKept, Round, Averaged;
    var w := DoPartial(v, id, qty, px).state;
    er := Build(w.issued[|v.issued|].report);
  }

  /** A cancel or reject is announced with its reason, no leaves, and the executed part untouched. */
  lemma CloseIsAnnounced(v: VenueState, id: string, to: Status, reason: string) returns (er: ExecReport)
    requires !v.silenced && (to == Canceled || to == Rejected)
    requires DoClose(v, id, to, reason).error.None?
    ensures id in v.book.orders && v.book.orders[id].IsOpen()
    ensures Announced(v, DoClose(v, id, to, reason).state, er) && About(er, v.book.orders[id].(status := to))
    ensures er.execType == (if to == Rejected then ExecRejected else ExecCanceled)
    ensures er.execID == ExecId(v.book.execSeq + 1) && er.leavesQty == 0.0
    ensures er.text == (if reason == "" then None else Some(reason))
    ensures er.lastQty.None? && er.lastPx.None? && er.restatement.None?
  {
    hide ExecId, OrderId, BookState.WellKept;
    RoundFixesUnits(0, QTY_SCALE);
    hide Round;
    var w := DoClose(v, id, to, reason).state;
    er := Build(w.issued[|v.issued|].report);
  }

  /** The mass cancel's notice is a cancel with the restatement reason, so a client can tell it from
      one it asked for. */
  lemma NoticeOnTheWire(o: OrderState, reason: string, execNo: nat, dropped: bool)
    ensures var er := Build(MassCancel.Notice(o, reason, execNo, dropped).report);
      && About(er, o.(status := Canceled)) && er.execType == ExecCanceled && er.leavesQty == 0.0
      && er.restatement == Some(100) && er.execID == ExecId(execNo)
      && er.text == (if reason == "" then None else Some(reason))
  {
    hide ExecId;
    RoundFixesUnits(0, QTY_SCALE);
    hide Round;
  }

  /** Skipping numbers makes holes on one session and nothing else. */
  lemma AdvanceOnlyMakesHoles(v: VenueState, kind: Kind, n: int, stored: bool)
    ensures var r := DoAdvance(v, kind, n, stored);
      && (r.error.None? <==> n > 0 && kind in v.logs && stored)
      && (r.error == Some(CountNotPositive) <==> n <= 0)
      && (r.error == Some(NoSession) <==> n > 0 && kind !in v.logs)
      && (r.error == Some(StoreFailed) <==> n > 0 && kind in v.logs && !stored)
      && r.state.book == v.book && r.state.issued == v.issued && r.state.logs.Keys == v.logs.Keys
      && (forall k :: k in v.logs ==>
            && v.logs[k] <= r.state.logs[k]
            && Sents(r.state.logs[k]) == Sents(v.logs[k])
            && |r.state.logs[k]| == |v.logs[k]| + if k == kind && n > 0 && stored then n else 0)
  {
    if n > 0 && kind in v.logs {
      Reachable.HolesHoldNothing(v.logs[kind], n);
    }
  }

  // ----- when the quantities add up -----

  lemma RoundUp(x: real, n: int)
    requires x >= 0.0 && n as real <= x + 0.5 < n as real + 1.0
    ensures Round(x, QTY_SCALE) == n as real
  {
    assert (x + 0.5).Floor == n;
  }

  function Frac(x: real): real {
    x - x.Floor as real
  }

  /** Fractional parts that both round down, or both up, while their sum rounds the other way. */
  predicate RoundApart(a: real, b: real) {
    (a < 0.5 && b < 0.5 && a + b >= 0.5) || (a >= 0.5 && b >= 0.5 && a + b < 1.5)
  }

  /** Two rounded parts add up to the rounded whole exactly when their fractions do not round apart. */
  lemma PartsAddUpExactlyWhen(c: real, d: real)
    requires c >= 0.0 && d >= 0.0
    ensures Round(c, QTY_SCALE) + Round(d, QTY_SCALE) == Round(c + d, QTY_SCALE) <==> !RoundApart(Frac(c), Frac(d))
  {
    var n, m, a, b := c.Floor, d.Floor, Frac(c), Frac(d);
    RoundUp(c, if a < 0.5 then n else n + 1);
    RoundUp(d, if b < 0.5 then m else m + 1);
    RoundUp(c + d, if a + b < 0.5 then n + m else if a + b < 1.5 then n + m + 1 else n + m + 2);
  }

  /** CumQty (14), LeavesQty (151) and OrderQty (38) are rounded one by one. On the report of a working
      order they add up exactly when the fractions of the executed and the open quantity do not round
      apart. */
  lemma ReportAddsUpExactlyWhen(r: Report)
    requires r.order.Sound() && r.order.IsOpen()
    ensures Build(r).cumQty + Build(r).leavesQty == Build(r).orderQty
       <==> !RoundApart(Frac(r.order.cumQty), Frac(r.order.terms.orderQty - r.order.cumQty))
  {
    var o := r.order;
    if o.cumQty <= o.terms.orderQty {
      PartsAddUpExactlyWhen(o.cumQty, o.terms.orderQty - o.cumQty);
    } else {
      RoundUp(0.0, 0);
      assert Frac(0.0) == 0.0;
    }
  }

  /** For a whole order quantity: exactly when the executed quantity does not end in a half. */
  lemma WholeOrderAddsUpExactlyWhen(r: Report)
    requires r.order.Sound() && r.order.IsOpen() && Frac(r.order.terms.orderQty) == 0.0
    ensures Build(r).cumQty + Build(r).leavesQty == Build(r).orderQty <==> Frac(r.order.cumQty) != 0.5
  {
    hide Build, Round;
    ReportAddsUpExactlyWhen(r);
    var c, q := r.order.cumQty, r.order.terms.orderQty;
    FracOfTheRest(c, q.Floor);
  }

  lemma FracOfTheRest(c: real, q: int)
    ensures Frac(q as real - c) == if Frac(c) == 0.0 then 0.0 else 1.0 - Frac(c)
  {
    if Frac(c) == 0.0 {
      assert (q as real - c).Floor == q - c.Floor;
    } else {
      assert (q as real - c).Floor == q - c.Floor - 1;
    }
  }

  /** Whatever the order quantity, they add up exactly when the executed quantity is whole. */
  lemma WireQuantitiesAddUpExactlyWhen(c: real)
    requires c >= 0.0
    ensures (forall q :: c <= q ==> Round(c, QTY_SCALE) + Round(q - c, QTY_SCALE) == Round(q, QTY_SCALE))
       <==> OnGrid(c, QTY_SCALE)
  {
    if OnGrid(c, QTY_SCALE) {
      forall q | c <= q ensures Round(c, QTY_SCALE) + Round(q - c, QTY_SCALE) == Round(q, QTY_SCALE) {
        PartsAddUpExactlyWhen(c, q - c);
      }
    } else {
      var rest := if Frac(c) < 0.5 then 0.5 - Frac(c) else 0.5;
      PartsAddUpExactlyWhen(c, rest);
      assert rest.Floor == 0;
      assert Round(c, QTY_SCALE) + Round((c + rest) - c, QTY_SCALE) != Round(c + rest, QTY_SCALE);
    }
  }

  /** Every report about a working order with a whole executed quantity adds up. */
  lemma ReportsAddUp(r: Report)
    requires r.order.Sound() && r.order.IsOpen() && OnGrid(r.order.cumQty, QTY_SCALE)
    ensures Build(r).cumQty + Build(r).leavesQty == Build(r).orderQty
  {
    hide Build, Round;
    ReportAddsUpExactlyWhen(r);
  }
}
