/** What each command comes to, in the order's own fields and FIX values: when it succeeds, what it leaves
    behind, and what it says. */
module Outcomes {
  import opened Decimals
  import opened Orders
  import opened Identifiers
  import opened Books
  import opened Messages
  import opened Venue
  import opened Runs
  import MassCancel

  /** From `v` to `w` there is this one report and the order it shows. It takes the next ExecID and goes out
      on every session, or is dropped by silence; flags, timers and all other orders stay. */
  ghost predicate ReportsOnce(v: VenueState, w: VenueState, r: Report) {
    && r.execID == ExecId(v.book.execSeq + 1)
    && w.issued == v.issued + [Issued(r, v.silenced)]
    && w.book.execSeq == v.book.execSeq + 1
    && w.book.orders == v.book.orders[r.order.terms.clOrdID := r.order]
    && w.logs.Keys == v.logs.Keys
    && (forall k :: k in v.logs ==> w.logs[k] == v.logs[k] + if v.silenced then [] else [Sent(Build(r))])
    && w == v.(book := w.book, issued := w.issued, logs := w.logs)
  }

  lemma PublishReportsOnce(v: VenueState, b: BookState, r: Report)
    requires b == v.book.(ids := b.ids, orders := v.book.orders[r.order.terms.clOrdID := r.order])
    ensures ReportsOnce(v, Publish(v.(book := b), r), r.(execID := ExecId(v.book.execSeq + 1)))
    ensures Publish(v.(book := b), r).book == b.(execSeq := v.book.execSeq + 1)
  {
    hide ExecId, Build;
  }

  // ----- trades -----

  /** The average over the whole executed quantity, to sixteen places. */
  predicate IsMean(mean: real, avg: real, cum: real, qty: real, px: real) {
    mean == Div(avg * cum + px * qty, cum + qty)
  }

  /** The order with `qty` more executed at `px`. */
  ghost predicate Executes(o: OrderState, n: OrderState, qty: real, px: real) {
    && n.terms == o.terms && n.orderID == o.orderID
    && n.cumQty == o.cumQty + qty
    && n.status == (if o.cumQty + qty == o.terms.orderQty then Filled else PartiallyFilled)
    && IsMean(n.avgPx, o.avgPx, o.cumQty, qty, px)
  }

  lemma TradeExecutes(o: OrderState, qty: real, px: real)
    requires Apply(Trade(qty, px), o).Ok?
    ensures Executes(o, Apply(Trade(qty, px), o).value, qty, px)
  {
    hide Averaged, IsMean;
    AveragedIsMean(o.avgPx, o.cumQty, qty, px);
  }

  lemma AveragedIsMean(avg: real, cum: real, qty: real, px: real)
    ensures IsMean(Averaged(avg, cum, qty, px), avg, cum, qty, px)
  {
    hide Div;
  }

  /** A partial succeeds exactly when its quantity is positive and no more than the order, New or
      PartiallyFilled, has left; it then trades that quantity at that price and says so. */
  lemma PartialExactlyWhen(v: VenueState, id: string, qty: real, px: real)
    requires v.book.WellKept()
    ensures var out, known := DoPartial(v, id, qty, px), id in v.book.orders;
      && (out.error.None? <==>
            && qty > 0.0 && known
            && (v.book.orders[id].status == New || v.book.orders[id].status == PartiallyFilled)
            && qty <= v.book.orders[id].terms.orderQty - v.book.orders[id].cumQty)
      && (out.error.Some? ==> out.state == v)
      && (out.error == Some(QtyNotPositive) <==> qty <= 0.0)
      && (out.error == Some(UnknownClOrdID) <==> qty > 0.0 && !known)
      && (qty > 0.0 && known ==>
            var o := v.book.orders[id];
            if o.status == Filled || o.status == Canceled || o.status == Rejected
            then out.error == Some(CannotTrade(o.status))
            else (out.error == Some(ExceedsLeaves) <==> o.cumQty + qty > o.terms.orderQty))
      && (out.error.None? ==>
            && id in out.state.book.orders && out.state.book.ids == v.book.ids
            && Executes(v.book.orders[id], out.state.book.orders[id], qty, px)
            && ReportsOnce(v, out.state,
                 Report(out.state.book.orders[id], ExecTrade, qty, px, "", 0, ExecId(v.book.execSeq + 1))))
  {
    hide ExecId, OrderId, Build, Executes, Averaged, ReportsOnce, Publish;
    if qty > 0.0 && id in v.book.orders && v.book.Update(id, Trade(qty, px)).Ok? {
      var b := v.book.Update(id, Trade(qty, px)).value;
      PublishReportsOnce(v, b, Describe(Trade(qty, px), b.orders[id], ""));
      TradeExecutes(v.book.orders[id], qty, px);
    }
  }

  /** A fill succeeds exactly on a New or PartiallyFilled order with something left. It trades all of that, at
      the price it was given, in one report, and leaves the order Filled. */
  lemma FillExactlyWhen(v: VenueState, id: string, px: real)
    requires v.book.WellKept()
    ensures var out, known := DoFill(v, id, px), id in v.book.orders;
      && (out.error.None? <==>
            && known
            && (v.book.orders[id].status == New || v.book.orders[id].status == PartiallyFilled)
            && v.book.orders[id].terms.orderQty > v.book.orders[id].cumQty)
      && (out.error.Some? ==> out.state == v && out.error.value == if known then QtyNotPositive else UnknownClOrdID)
      && (out.error.None? ==>
            && id in out.state.book.orders && out.state.book.ids == v.book.ids
            && var o, n := v.book.orders[id], out.state.book.orders[id];
            && Executes(o, n, o.terms.orderQty - o.cumQty, px) && n.status == Filled
            && ReportsOnce(v, out.state,
                 Report(n, ExecTrade, o.terms.orderQty - o.cumQty, px, "", 0, ExecId(v.book.execSeq + 1))))
  {
    hide DoPartial, ReportsOnce, ExecId, BookState.WellKept, Div;
    if id in v.book.orders {
      PartialExactlyWhen(v, id, v.book.orders[id].LeavesQty(), px);
    }
  }

  // ----- cancels and rejects -----

  /** A cancel or reject succeeds exactly on a New or PartiallyFilled order, executed or not; it moves the
      status alone, and says why. */
  lemma CloseExactlyWhen(v: VenueState, id: string, to: Status, reason: string)
    requires v.book.WellKept() && (to == Canceled || to == Rejected)
    ensures var out, known := DoClose(v, id, to, reason), id in v.book.orders;
      && (out.error.None? <==>
            known && (v.book.orders[id].status == New || v.book.orders[id].status == PartiallyFilled))
      && (out.error.Some? ==>
            out.state == v && out.error.value == if known then CannotClose(v.book.orders[id].status) else UnknownClOrdID)
      && (out.error.None? ==>
            && out.state.book.ids == v.book.ids
            && ReportsOnce(v, out.state,
                 Report(v.book.orders[id].(status := to), if to == Rejected then ExecRejected else ExecCanceled,
                        0.0, 0.0, reason, 0, ExecId(v.book.execSeq + 1))))
  {
    hide ExecId, OrderId, Build, ReportsOnce, Publish;
    if id in v.book.orders && v.book.Update(id, Close(to)).Ok? {
      var b := v.book.Update(id, Close(to)).value;
      PublishReportsOnce(v, b, Describe(Close(to), b.orders[id], reason));
    }
  }

  // ----- new orders -----

  /** The five tags the venue insists on: 11, 55, 54, 38, 40. */
  ghost predicate Complete(f: OrderFields) {
    f.clOrdID.Some? && f.symbol.Some? && f.side.Some? && f.orderQty.Some? && f.ordType.Some?
  }

  /** What is booked is what was asked for; price, TimeInForce and account may be missing. */
  ghost predicate AsAsked(t: Terms, f: OrderFields)
    requires Complete(f)
  {
    && t.clOrdID == f.clOrdID.value && t.symbol == f.symbol.value && t.side == f.side.value
    && t.orderQty == f.orderQty.value && t.ordType == f.ordType.value
    && t.price == (if f.price.Some? then f.price.value else 0.0)
    && t.timeInForce == (if f.timeInForce.Some? then f.timeInForce.value else "")
    && t.account == (if f.account.Some? then f.account.value else "")
  }

  /** The tag an incomplete order is rejected for: the first one missing. */
  ghost predicate FirstMissing(f: OrderFields, tag: nat) {
    || (tag == 11 && f.clOrdID.None?)
    || (tag == 55 && f.clOrdID.Some? && f.symbol.None?)
    || (tag == 54 && f.clOrdID.Some? && f.symbol.Some? && f.side.None?)
    || (tag == 38 && f.clOrdID.Some? && f.symbol.Some? && f.side.Some? && f.orderQty.None?)
    || (tag == 40 && f.clOrdID.Some? && f.symbol.Some? && f.side.Some? && f.orderQty.Some? && f.ordType.None?)
  }

  /** An order is accepted exactly when it is complete and its ClOrdID is new; then it is booked as asked,
      New and unexecuted, after all others, and acknowledged. A refusal changes nothing, and says which tag
      is missing, or that the ClOrdID is taken. */
  lemma NewOrderExactlyWhen(v: VenueState, f: OrderFields)
    ensures var out := DoNewOrder(v, f);
      && (out.rejection.None? <==> Complete(f) && f.clOrdID.value !in v.book.orders)
      && (forall tag :: out.rejection == Some(MissingTag(tag)) <==> FirstMissing(f, tag))
      && (Complete(f) && f.clOrdID.value in v.book.orders ==> out.rejection == Some(Refused(DuplicateClOrdID)))
      && (out.rejection.Some? ==> out.state == v)
      && (out.rejection.None? ==>
            && f.clOrdID.value in out.state.book.orders
            && out.state.book.ids == v.book.ids + [f.clOrdID.value]
            && var n := out.state.book.orders[f.clOrdID.value];
            && AsAsked(n.terms, f) && n.orderID == OrderId(|v.book.ids| + 1)
            && n.status == New && n.cumQty == 0.0 && n.avgPx == 0.0
            && ReportsOnce(v, out.state, Report(n, ExecNew, 0.0, 0.0, "", 0, ExecId(v.book.execSeq + 1))))
  {
    hide ExecId, OrderId, Build, ReportsOnce, Publish;
    if Incomplete(f).None? && f.clOrdID.value !in v.book.orders {
      var b := v.book.Insert(Received(f)).value;
      PublishReportsOnce(v, b, NewAck(b.orders[f.clOrdID.value]));
    }
  }

  /** The reject policy, case by case: what is acted upon, what is passed over and what is answered. */
  lemma FromAppExactlyWhen(v: VenueState, kind: Kind, body: Body)
    ensures var out := DoFromApp(v, kind, body);
      && (out.rejection.None? <==>
            kind == OrderEntry
            && (|| body.BusinessReject? || body.SessionReject?
                || (body.NewOrderSingle? && Complete(body.order) && body.order.clOrdID.value !in v.book.orders)))
      && (out.state != v <==> out.rejection.None? && body.NewOrderSingle?)
      && (kind == DropCopy ==> out.rejection == Some(ReadOnlySession))
      && (kind == OrderEntry && body.NoMsgType? ==> out.rejection == Some(MissingTag(35)))
      && (kind == OrderEntry && (body.ExecutionReport? || body.OtherType?) ==> out.rejection == Some(Unsupported))
      && (kind == OrderEntry && body.NewOrderSingle? ==> out == DoNewOrder(v, body.order))
  {
    hide DoNewOrder, Complete, AsAsked, FirstMissing, ExecId, Build;
    if body.NewOrderSingle? {
      NewOrderExactlyWhen(v, body.order);
    }
  }

  // ----- the mass cancel -----

  /** The mass cancel turns an order Canceled exactly when it is New or PartiallyFilled and its TimeInForce
      (59) is missing or 0, good-till orders being spared, and moves nothing else. */
  lemma CancelAllExactlyWhen(v: VenueState, reason: string, id: string)
    requires Inv(v) && id in v.book.orders
    ensures var o, n := v.book.orders[id], DoCancelAll(v, reason).book.orders;
      && id in n
      && n[id] == if (o.status == New || o.status == PartiallyFilled)
                    && (o.terms.timeInForce == "" || o.terms.timeInForce == "0")
                  then o.(status := Canceled) else o
  {
    hide Inv, DoCancelAll;
    MassCancel.CancelAllOpenDay(v, reason);
  }

  /** Report `i` of a mass cancel shows an order it struck. */
  ghost predicate Strikes(v: VenueState, w: VenueState, i: Issued, reason: string) {
    var id := i.report.order.terms.clOrdID;
    && id in v.book.orders && id in w.book.orders && w.book.orders[id] != v.book.orders[id]
    && i.dropped == v.silenced
    && i.report == Report(w.book.orders[id], ExecCanceled, 0.0, 0.0, reason, 100, i.report.execID)
  }

  /** The orders a mass cancel finds, each listed once. */
  lemma Listed(b: BookState) returns (ids: seq<string>)
    requires b.WellKept()
    ensures |ids| == |b.OpenDay()| && forall i, j :: 0 <= i < j < |ids| ==> ids[i] != ids[j]
    ensures forall i :: 0 <= i < |ids| ==>
      b.IsOpenDay(ids[i]) && b.OpenDay()[i] == b.orders[ids[i]] && b.orders[ids[i]].terms.clOrdID == ids[i]
    ensures forall id :: b.IsOpenDay(id) ==> id in ids
  {
    hide OrderId, OrderState.IsOpen, OrderState.IsDay;
    var at := OpenDayIsTheFilter(b, |b.ids|);
    ids := seq(|at|, i requires 0 <= i < |at| => b.ids[at[i]]);
    forall i, j | 0 <= i < j < |ids| ensures ids[i] != ids[j] {
      IdsAreDistinct(b, at[i], at[j]);
    }
    forall id | b.IsOpenDay(id) ensures id in ids {
      var n: nat :| n < |b.ids| && b.ids[n] == id;
      assert n in at;
      var i :| 0 <= i < |at| && at[i] == n;
      assert ids[i] == id;
    }
    forall i | 0 <= i < |ids| ensures b.IsOpenDay(ids[i]) {
      assert at[i] in at;
    }
  }

  /** Each report of a mass cancel shows one order it struck, with restatement reason (378) 100 and the
      reason (58) given; each order it struck has one, and no more. */
  lemma CancelAllSays(v: VenueState, reason: string)
    requires Inv(v)
    ensures var w := DoCancelAll(v, reason); var from := |v.issued|;
      && from <= |w.issued| && w.issued[..from] == v.issued && w.book.orders.Keys == v.book.orders.Keys
      && (forall k :: from <= k < |w.issued| ==> Strikes(v, w, w.issued[k], reason))
      && (forall id :: id in v.book.orders && w.book.orders[id] != v.book.orders[id] ==>
            exists k :: from <= k < |w.issued| && Names(w.issued[k], id))
      && (forall j, k :: from <= j < k < |w.issued| ==>
            w.issued[j].report.order.terms.clOrdID != w.issued[k].report.order.terms.clOrdID)
  {
    hide Inv, DoCancelAll, Strikes, Names;
    MassCancel.CancelAllOpenDay(v, reason);
    var ids, notices := EachIsStruck(v, reason);
    NamedOnce(v.issued, notices, ids);
  }

  lemma EachIsStruck(v: VenueState, reason: string) returns (ids: seq<string>, notices: seq<Issued>)
    requires Inv(v)
    ensures var w := DoCancelAll(v, reason);
      && w.issued == v.issued + notices && |notices| == |ids|
      && (forall i :: 0 <= i < |notices| ==> Strikes(v, w, notices[i], reason) && Names(notices[i], ids[i]))
      && (forall i, j :: 0 <= i < j < |ids| ==> ids[i] != ids[j])
      && (forall id :: id in v.book.orders && id in w.book.orders && w.book.orders[id] != v.book.orders[id] ==> id in ids)
  {
    hide Inv, DoCancelAll, BookState.OpenDay, BookState.WellKept, MassCancel.Notice, Strikes, Names;
    MassCancel.CancelAllOpenDay(v, reason);
    MassCancel.InvIsWellKept(v);
    NoticesGoOut(v, reason);
    var b, w := v.book, DoCancelAll(v, reason);
    ids := Listed(b);
    notices := MassCancel.Notices(b.OpenDay(), reason, b.execSeq, v.silenced);
    hide MassCancel.Notices, BookState.IsOpenDay;
    forall i | 0 <= i < |ids| ensures Strikes(v, w, notices[i], reason) && Names(notices[i], ids[i]) {
      NoticeStrikes(v, w, ids[i], notices[i], reason);
    }
    forall id | id in b.orders && w.book.orders[id] != b.orders[id] ensures id in ids {
      OnlyWorkingAreStruck(b, id);
    }
  }

  lemma OnlyWorkingAreStruck(b: BookState, id: string)
    requires id in b.orders && MassCancel.Struck(b.orders[id]) != b.orders[id]
    ensures b.IsOpenDay(id)
  {
  }

  lemma NoticesGoOut(v: VenueState, reason: string)
    requires Inv(v)
    ensures DoCancelAll(v, reason).issued
         == v.issued + MassCancel.Notices(v.book.OpenDay(), reason, v.book.execSeq, v.silenced)
  {
    hide Inv, DoCancelAll, MassCancel.Notices, MassCancel.WireSlots, MassCancel.StruckUpTo;
    MassCancel.CancelAllReports(v, reason);
  }

  predicate Names(i: Issued, id: string) {
    i.report.order.terms.clOrdID == id
  }

  lemma NamedOnce(before: seq<Issued>, notices: seq<Issued>, ids: seq<string>)
    requires |notices| == |ids| && forall i :: 0 <= i < |ids| ==> Names(notices[i], ids[i])
    requires forall i, j :: 0 <= i < j < |ids| ==> ids[i] != ids[j]
    ensures var all, from := before + notices, |before|;
      && all[..from] == before && (forall k :: from <= k < |all| ==> all[k] == notices[k - from])
      && (forall id :: id in ids ==> exists k :: from <= k < |all| && Names(all[k], id))
      && (forall j, k :: from <= j < k < |all| ==>
            all[j].report.order.terms.clOrdID != all[k].report.order.terms.clOrdID)
  {
    var all, from := before + notices, |before|;
    forall id | id in ids ensures exists k :: from <= k < |all| && Names(all[k], id) {
      var i :| 0 <= i < |ids| && ids[i] == id;
      assert Names(all[from + i], id);
    }
    forall j, k | from <= j < k < |all|
      ensures all[j].report.order.terms.clOrdID != all[k].report.order.terms.clOrdID
    {
      assert Names(notices[j - from], ids[j - from]) && Names(notices[k - from], ids[k - from]);
    }
  }

  lemma NoticeStrikes(v: VenueState, w: VenueState, id: string, i: Issued, reason: string)
    requires v.book.IsOpenDay(id) && id in w.book.orders && v.book.orders[id].terms.clOrdID == id
    requires w.book.orders[id] == MassCancel.Struck(v.book.orders[id])
    requires exists n: nat :: i == MassCancel.Notice(v.book.orders[id], reason, n, v.silenced)
    ensures Strikes(v, w, i, reason) && Names(i, id)
  {
    hide ExecId;
  }
}
