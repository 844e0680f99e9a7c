/** What was asked for stays what is reported: an order's terms from its acceptance to its last report, and
    what its TimeInForce means to a lost session. */
module Provenance {
  import opened Decimals
  import opened Orders
  import opened Identifiers
  import opened Books
  import opened Messages
  import opened Venue
  import opened Runs
  import opened Outcomes
  import opened CancelOnDisconnect
  import opened Clients
  import Reachable

  // ----- terms never change -----

  /** The order is still there, as it was asked for and under its OrderID. */
  predicate Same(b: BookState, n: BookState, id: string)
    requires id in b.orders
  {
    id in n.orders && n.orders[id].terms == b.orders[id].terms && n.orders[id].orderID == b.orders[id].orderID
  }

  lemma ChangeKeepsTerms(v: VenueState, x: string, c: Change, reason: string, id: string)
    requires id in v.book.orders
    ensures Same(v.book, DoChange(v, x, c, reason).state.book, id)
  {
    hide Describe, ExecId, Build, Averaged;
  }

  lemma {:induction false} CancelsKeepTerms(v: VenueState, os: seq<OrderState>, reason: string, id: string)
    requires id in v.book.orders
    ensures Same(v.book, DoCancelEach(v, os, reason).book, id)
  {
    hide DoChange;
    if os != [] {
      CancelsKeepTerms(v, os[..|os| - 1], reason, id);
      ChangeKeepsTerms(DoCancelEach(v, os[..|os| - 1], reason), os[|os| - 1].terms.clOrdID, ForceCancel, reason, id);
    }
  }

  /** No command changes what an order was asked for, or its OrderID, or forgets it. */
  lemma StepKeepsTerms(v: VenueState, c: Command, id: string)
    requires id in v.book.orders
    ensures Same(v.book, Step(v, c).book, id)
  {
    hide DoChange, DoNewOrder, DoCancelEach, BookState.OpenDay, OrderState.LeavesQty, CodReason;
    match c {
      case Inbound(kind, body) =>
        if body.NewOrderSingle? {
          NewOrderSparesOthers(v, body.order, id);
        }
      case Fill(x, px) =>
        if x in v.book.orders {
          ChangeKeepsTerms(v, x, Trade(v.book.orders[x].LeavesQty(), px), "", id);
        }
      case Partial(x, qty, px) => ChangeKeepsTerms(v, x, Trade(qty, px), "", id);
      case Cancel(x, reason) => ChangeKeepsTerms(v, x, Close(Canceled), reason, id);
      case Reject(x, reason) => ChangeKeepsTerms(v, x, Close(Rejected), reason, id);
      case CancelAll(reason) => CancelsKeepTerms(v, v.book.OpenDay(), reason, id);
      case Expire(i, at) =>
        if CanExpire(v, i, at) {
          CancelsKeepTerms(v.(timers := v.timers[..i] + v.timers[i + 1..]), v.book.OpenDay(),
                           CodReason(v.timers[i].kind), id);
        }
      case _ =>
    }
  }

  lemma {:induction false} RunKeepsTerms(kinds: set<Kind>, ts: seq<Timed>, n: nat, e: nat, id: string)
    requires n <= e <= |ts| && id in At(kinds, ts, n).book.orders
    ensures Same(At(kinds, ts, n).book, At(kinds, ts, e).book, id)
    decreases e
  {
    hide Step;
    if n < e {
      RunKeepsTerms(kinds, ts, n, e - 1, id);
      AtStep(kinds, ts, e - 1);
      StepKeepsTerms(At(kinds, ts, e - 1), ts[e - 1].command, id);
    }
  }

  // ----- on the wire -----

  /** The tags that say which order a report is about, and what was asked for. */
  ghost predicate SameTags(a: ExecReport, b: ExecReport) {
    && a.clOrdID == b.clOrdID && a.orderID == b.orderID && a.symbol == b.symbol && a.side == b.side
    && a.orderQty == b.orderQty && a.price == b.price && a.account == b.account
  }

  /** Reports of one order carry the same price, account, symbol, side, quantity and names, whatever
      happened to it. */
  lemma SameTermsSameTags(r: Report, s: Report)
    requires r.order.terms == s.order.terms && r.order.orderID == s.order.orderID
    ensures SameTags(Build(r), Build(s))
  {
    hide Round;
  }

  /** Every report in an order's history shows the order as it was asked for. */
  lemma HistoryKeepsTerms(v: VenueState, id: string, k: nat)
    requires Inv(v) && k < |History(v.issued, id)|
    ensures id in v.book.orders
    ensures var r, o := History(v.issued, id)[k], v.book.orders[id];
      r.order.terms == o.terms && r.order.orderID == o.orderID
  {
    hide Numbered, History, BookState.WellKept, BookState.AllSound, Delivered, Chained;
    assert Traced(v, id);
    ChainKeepsTerms(History(v.issued, id), k);
  }

  lemma {:induction false} ChainKeepsTerms(rs: seq<Report>, k: nat)
    requires Chained(rs) && k < |rs|
    ensures var last := rs[|rs| - 1].order; rs[k].order.terms == last.terms && rs[k].order.orderID == last.orderID
    decreases |rs| - k
  {
    hide Averaged, Opens;
    if k < |rs| - 1 {
      assert LinkAt(rs, k + 1);
      ChainKeepsTerms(rs, k + 1);
    }
  }

  /** Event `n` of the run is this order, and the venue accepts it. */
  ghost predicate AcceptedAt(kinds: set<Kind>, ts: seq<Timed>, n: nat, f: OrderFields)
    requires n < |ts|
  {
    && ts[n].command == Inbound(OrderEntry, NewOrderSingle(f))
    && DoNewOrder(At(kinds, ts, n), f).rejection.None?
  }

  /** From then on the book holds it as it was asked for. */
  lemma StaysAsAsked(kinds: set<Kind>, ts: seq<Timed>, n: nat, e: nat, f: OrderFields)
    requires n < e <= |ts| && AcceptedAt(kinds, ts, n, f)
    ensures Complete(f) && f.clOrdID.value in At(kinds, ts, e).book.orders
    ensures AsAsked(At(kinds, ts, e).book.orders[f.clOrdID.value].terms, f)
  {
    hide ReportsOnce, At, AsAsked, DoNewOrder;
    var v := At(kinds, ts, n);
    NewOrderExactlyWhen(v, f);
    AtStep(kinds, ts, n);
    hide Complete, FirstMissing;
    assert At(kinds, ts, n + 1).book == DoNewOrder(v, f).state.book;
    RunKeepsTerms(kinds, ts, n + 1, e, f.clOrdID.value);
  }

  /** From acceptance to the end of any serialized run, every report about the order carries the price, account,
      symbol, side and quantity its sender gave. */
  lemma ReportsCarryWhatWasAsked(kinds: set<Kind>, ts: seq<Timed>, n: nat, e: nat, f: OrderFields, k: nat)
    requires n < e <= |ts| && AcceptedAt(kinds, ts, n, f) && Complete(f)
    requires k < |History(At(kinds, ts, e).issued, f.clOrdID.value)|
    ensures var r := History(At(kinds, ts, e).issued, f.clOrdID.value)[k]; var er := Build(r);
      && AsAsked(r.order.terms, f)
      && er.clOrdID == f.clOrdID.value && er.symbol == f.symbol.value && er.side == f.side.value
      && er.orderQty == Round(f.orderQty.value, QTY_SCALE)
      && er.price == (if f.price.Some? && f.price.value != 0.0 then Some(Round(f.price.value, PX_SCALE)) else None)
      && er.account == (if f.account == Some("") then None else f.account)
  {
    hide Inv, At, History, Round, AcceptedAt;
    StaysAsAsked(kinds, ts, n, e, f);
    AtInv(kinds, ts, e);
    HistoryKeepsTerms(At(kinds, ts, e), f.clOrdID.value, k);
  }

  // ----- what a lost session takes -----

  /** Event `e` is a due timer that finds its session down. */
  ghost predicate FiresAt(kinds: set<Kind>, ts: seq<Timed>, e: nat, kind: Kind)
    requires e < |ts|
  {
    var v, c := At(kinds, ts, e), ts[e].command;
    c.Expire? && CanExpire(v, c.timer, c.at) && v.timers[c.timer].kind == kind && kind !in v.loggedOn
  }

  /** A firing takes an order that still works exactly when it was sent with TimeInForce missing, empty or 0;
      one sent good-till survives. */
  lemma FiringTakesExactlyWhen(kinds: set<Kind>, ts: seq<Timed>, n: nat, e: nat, f: OrderFields, kind: Kind)
    requires n < e < |ts| && AcceptedAt(kinds, ts, n, f) && Complete(f) && FiresAt(kinds, ts, e, kind)
    ensures f.clOrdID.value in At(kinds, ts, e).book.orders && f.clOrdID.value in At(kinds, ts, e + 1).book.orders
    ensures var o, w := At(kinds, ts, e).book.orders[f.clOrdID.value], At(kinds, ts, e + 1).book.orders[f.clOrdID.value];
      o.status == New || o.status == PartiallyFilled ==>
        if f.timeInForce.None? || f.timeInForce == Some("") || f.timeInForce == Some("0")
        then w == o.(status := Canceled) else w == o
  {
    hide At, AcceptedAt, Inv, DoCancelAll;
    StaysAsAsked(kinds, ts, n, e, f);
    AtInv(kinds, ts, e);
    FiringIsMassCancel(kinds, ts, e, kind);
    CancelAllExactlyWhen(Fired(kinds, ts, e), CodReason(kind), f.clOrdID.value);
  }

  /** The venue with the timer taken off, before its mass cancel. */
  ghost function Fired(kinds: set<Kind>, ts: seq<Timed>, e: nat): VenueState
    requires e < |ts| && ts[e].command.Expire? && ts[e].command.timer < |At(kinds, ts, e).timers|
  {
    var v, i := At(kinds, ts, e), ts[e].command.timer;
    v.(timers := v.timers[..i] + v.timers[i + 1..])
  }

  lemma FiringIsMassCancel(kinds: set<Kind>, ts: seq<Timed>, e: nat, kind: Kind)
    requires e < |ts| && FiresAt(kinds, ts, e, kind)
    ensures Inv(Fired(kinds, ts, e))
    ensures At(kinds, ts, e + 1) == DoCancelAll(Fired(kinds, ts, e), CodReason(kind))
  {
    hide At, Inv, DoCancelAll;
    AtInv(kinds, ts, e);
    AtStep(kinds, ts, e);
    Reachable.SameBookAndReports(At(kinds, ts, e), Fired(kinds, ts, e));
  }

  /** What a firing announces: every report of it names the session that was lost, as the venue names it, and
      says by its restatement reason that nobody asked for the cancel. */
  lemma FiringSaysWhy(kinds: set<Kind>, ts: seq<Timed>, e: nat, kind: Kind, k: nat)
    requires e < |ts| && FiresAt(kinds, ts, e, kind)
    requires |At(kinds, ts, e).issued| <= k < |At(kinds, ts, e + 1).issued|
    ensures var er := Build(At(kinds, ts, e + 1).issued[k].report);
      && er.execType == ExecCanceled && er.ordStatus == Canceled && er.restatement == Some(100)
      && er.text == Some("cancel on disconnect ("
           + (if kind == OrderEntry then "FIX.4.4:FIXLABEX->OECLIENT" else "FIX.4.4:FIXLABEX->DCCLIENT") + ")")
  {
    hide At, Inv, DoCancelAll, Round;
    FiringIsMassCancel(kinds, ts, e, kind);
    var v, w := Fired(kinds, ts, e), At(kinds, ts, e + 1);
    CancelAllSays(v, CodReason(kind));
    CancelAllExactlyWhen(v, CodReason(kind), w.issued[k].report.order.terms.clOrdID);
  }

  // ----- the client's own orders -----

  /** The venue accepts what the client sends exactly when the ClOrdID is new to it; it books a limit order for
      the day with the symbol, side and account asked for, quantity and price as rounded for the wire. Its
      acceptance stands in the way of no other counter of the same client. */
  lemma OwnOrdersAreAccepted(v: VenueState, prefix: string, n: nat, o: NewOrder)
    ensures var id := ClOrdId(prefix, n); var f := Written(id, o);
      var out := DoNewOrder(v, f);
      && (out.rejection.None? <==> id !in v.book.orders)
      && (out.rejection.None? ==>
            && id in out.state.book.orders
            && out.state.book.orders[id].terms
                 == Terms(id, o.account, o.symbol, o.side, "2", "0", Round(o.price, 100), Round(o.orderQty, 1))
            && forall m: nat :: m != n ==>
                 (ClOrdId(prefix, m) in out.state.book.orders <==> ClOrdId(prefix, m) in v.book.orders))
  {
    hide ClOrdId, Round, ExecId, DoNewOrder;
    var id := ClOrdId(prefix, n);
    NewOrderExactlyWhen(v, Written(id, o));
    forall m: nat | m != n ensures ClOrdId(prefix, m) != id {
      ClOrdIdInjective(prefix, m, prefix, n);
    }
  }
}
