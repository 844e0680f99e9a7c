/** Every serialized run: commands in any order and number, from an empty venue. */
module Reachable {
  import opened Decimals
  import opened Orders
  import opened Identifiers
  import opened Books
  import opened Messages
  import opened Venue
  import opened AveragePrice
  import opened Runs
  import MassCancel

  lemma InitialInv(kinds: set<Kind>)
    ensures Inv(Initial(kinds))
  {
    hide ExecId, OrderId;
    var v := Initial(kinds);
    forall k | k in v.logs ensures Sents(v.logs[k]) == Delivered(v.issued) {
      assert v.logs[k] == [];
    }
  }

  /** A state that differs only in what the invariant does not mention. */
  lemma SameBookAndReports(v: VenueState, w: VenueState)
    requires Inv(v) && w.book == v.book && w.issued == v.issued && w.logs.Keys == v.logs.Keys
    requires forall k :: k in v.logs ==> Sents(w.logs[k]) == Sents(v.logs[k])
    ensures Inv(w)
  {
    hide OrderId, ExecId, History, BookState.WellKept;
    assert Numbered(w);
    forall id ensures Traced(w, id) {
      assert Traced(v, id);
    }
  }

  lemma {:induction false} HolesHoldNothing(log: seq<Slot>, n: nat)
    ensures Sents(log + Holes(n)) == Sents(log)
  {
    if n == 0 {
      assert log + Holes(0) == log;
    } else {
      HolesHoldNothing(log, n - 1);
      assert (log + Holes(n))[..|log| + n - 1] == log + Holes(n - 1);
      assert Sents(log) + [] == Sents(log);
    }
  }

  /** Every command keeps the invariant. */
  lemma StepKeepsInv(v: VenueState, c: Command)
    requires Inv(v)
    ensures Inv(Step(v, c))
  {
    hide Inv, OrderId, DoChange, DoNewOrder, Delivered, DoCancelAll;
    match c {
      case Inbound(kind, body) =>
        if kind == OrderEntry && body.NewOrderSingle? {
          NewOrderKeepsInv(v, body.order);
        }
      case Fill(id, px) =>
        if id in v.book.orders && v.book.orders[id].LeavesQty() > 0.0 {
          ChangeKeepsInv(v, id, Trade(v.book.orders[id].LeavesQty(), px), "");
        }
      case Partial(id, qty, px) =>
        if qty > 0.0 {
          ChangeKeepsInv(v, id, Trade(qty, px), "");
        }
      case Cancel(id, reason) => ChangeKeepsInv(v, id, Close(Canceled), reason);
      case Reject(id, reason) => ChangeKeepsInv(v, id, Close(Rejected), reason);
      case CancelAll(reason) => MassCancel.CancelAllReports(v, reason);
      case Advance(kind, n, stored) =>
        if n > 0 && kind in v.logs {
          HolesHoldNothing(v.logs[kind], n);
        }
        SameBookAndReports(v, Step(v, c));
      case Expire(i, at) => ExpireKeepsInv(v, i, at);
      case _ => SameBookAndReports(v, Step(v, c));
    }
  }

  lemma ExpireKeepsInv(v: VenueState, i: nat, at: int)
    requires Inv(v)
    ensures Inv(DoExpire(v, i, at))
  {
    hide Inv, OrderId, DoCancelAll, BookState.WellKept;
    if CanExpire(v, i, at) {
      var fired := v.(timers := v.timers[..i] + v.timers[i + 1..]);
      SameBookAndReports(v, fired);
      if v.timers[i].kind !in v.loggedOn {
        MassCancel.CancelAllReports(fired, CodReason(v.timers[i].kind));
      }
    }
  }

  /** The state after a run of commands. */
  function Run(v: VenueState, cs: seq<Command>): VenueState {
    if cs == [] then v else Step(Run(v, cs[..|cs| - 1]), cs[|cs| - 1])
  }

  lemma {:induction false} RunKeepsInv(v: VenueState, cs: seq<Command>)
    requires Inv(v)
    ensures Inv(Run(v, cs))
  {
    hide Inv, Step;
    if cs != [] {
      RunKeepsInv(v, cs[..|cs| - 1]);
      StepKeepsInv(Run(v, cs[..|cs| - 1]), cs[|cs| - 1]);
    }
  }

  /** The venue after any serialized run from scratch. */
  function Reached(kinds: set<Kind>, cs: seq<Command>): VenueState {
    Run(Initial(kinds), cs)
  }

  lemma ReachedInv(kinds: set<Kind>, cs: seq<Command>)
    ensures Inv(Reached(kinds, cs))
  {
    hide Inv;
    InitialInv(kinds);
    RunKeepsInv(Initial(kinds), cs);
  }

  /** ExecIDs never repeat, on a session or across the two: the same ExecID is the same report. */
  lemma ExecIdsNeverRepeat(kinds: set<Kind>, cs: seq<Command>, i: nat, j: nat)
    ensures var issued := Reached(kinds, cs).issued;
      i < |issued| && j < |issued| ==> (issued[i].report.execID == issued[j].report.execID <==> i == j)
  {
    hide Reached, ExecId;
    ReachedInv(kinds, cs);
    VenueIdsInjective(i + 1, j + 1);
  }

  /** The two sessions carry the same reports in the same order, holes aside. */
  lemma FanoutAgrees(kinds: set<Kind>, cs: seq<Command>)
    ensures var v := Reached(kinds, cs);
      forall j, k :: j in v.logs && k in v.logs ==> Sents(v.logs[j]) == Sents(v.logs[k])
  {
    hide Reached;
    ReachedInv(kinds, cs);
  }

  /** The FIX order state matrix, as it shows in one order's reports: an acknowledgement, then
      trades while the order works, then at most one report that ends it. */
  ghost predicate Matrix(rs: seq<Report>) {
    forall k: nat :: k < |rs| ==> MatrixRow(rs, k)
  }

  ghost predicate MatrixRow(rs: seq<Report>, k: nat)
    requires k < |rs|
  {
    var o := rs[k].order;
    // the quantities of every report
    && (o.IsOpen() ==> o.cumQty + o.LeavesQty() == o.terms.orderQty)
    && (!o.IsOpen() ==> o.LeavesQty() == 0.0)
    // the first report and only the first acknowledges
    && (rs[k].execType == ExecNew <==> k == 0)
    && (k == 0 ==> o.status == New && o.cumQty == 0.0)
    && (k > 0 ==>
          var p := rs[k - 1].order;
          && p.IsOpen()
          && o.terms == p.terms && o.orderID == p.orderID
          && match rs[k].execType
             case ExecTrade =>
               && o.cumQty == p.cumQty + rs[k].lastQty
               && p.cumQty < o.cumQty <= o.terms.orderQty
               && o.status == if o.cumQty == o.terms.orderQty then Filled else PartiallyFilled
             case ExecCanceled => o == p.(status := Canceled)
             case ExecRejected => o == p.(status := Rejected)
             case ExecNew => true)
  }

  lemma {:induction false} ChainsAreSound(rs: seq<Report>, k: nat)
    requires Chained(rs) && k < |rs|
    ensures rs[k].order.Sound()
  {
    assert LinkAt(rs, k);
    if k > 0 {
      ChainsAreSound(rs, k - 1);
      ApplyKeepsSound(ChangeOf(rs[k]), rs[k - 1].order);
    }
  }

  lemma ChainsObeyTheMatrix(rs: seq<Report>)
    requires Chained(rs)
    ensures Matrix(rs)
  {
    forall k: nat | k < |rs| ensures MatrixRow(rs, k) {
      assert LinkAt(rs, k);
      ChainsAreSound(rs, k);
      if k > 0 {
        ChainsAreSound(rs, k - 1);
      }
    }
  }

  /** Every order's reports obey the matrix, and the last one is where the book has it. */
  lemma ReportLanguage(kinds: set<Kind>, cs: seq<Command>, id: string)
    ensures var v, rs := Reached(kinds, cs), History(Reached(kinds, cs).issued, id);
      && Matrix(rs)
      && (id in v.book.orders <==> rs != [])
      && (rs != [] ==> rs[|rs| - 1].order == v.book.orders[id])
  {
    hide Reached, BookState.WellKept;
    ReachedInv(kinds, cs);
    var v := Reached(kinds, cs);
    assert Traced(v, id);
    ChainsObeyTheMatrix(History(v.issued, id));
  }

  /** The fills an order's reports announce. */
  function Fills(rs: seq<Report>): seq<AveragePrice.Fill> {
    if rs == [] then [] else
      var r := rs[|rs| - 1];
      Fills(rs[..|rs| - 1]) + if r.execType.ExecTrade? then [AveragePrice.Fill(r.lastQty, r.lastPx)] else []
  }

  /** The quantity and price of an order are those of the fills it was reported. */
  lemma {:induction false} ChainsConserve(rs: seq<Report>)
    requires Chained(rs) && rs != []
    ensures var o, fs := rs[|rs| - 1].order, Fills(rs);
      Positive(fs) && o.cumQty == Volume(fs) && o.avgPx == RunningAvg(fs)
  {
    hide Averaged;
    var before := rs[..|rs| - 1];
    var r := rs[|rs| - 1];
    assert LinkAt(rs, |rs| - 1);
    if before != [] {
      forall k: nat | k < |before| ensures LinkAt(before, k) {
        assert LinkAt(rs, k);
      }
      ChainsConserve(before);
      var f := AveragePrice.Fill(r.lastQty, r.lastPx);
      assert (Fills(before) + [f])[..|Fills(before)|] == Fills(before);
      assert Fills(before) + [] == Fills(before);
    }
  }

  /** Conservation: the traded quantity the venue reported for an order is what the order executed,
      and its average price is within the rounding bound of the reported fills' true mean. */
  lemma ReportedFillsAreTheOrder(kinds: set<Kind>, cs: seq<Command>, id: string)
    ensures var v, fs := Reached(kinds, cs), Fills(History(Reached(kinds, cs).issued, id));
      id in v.book.orders ==>
        && v.book.orders[id].cumQty == Volume(fs)
        && (fs != [] ==>
              && Volume(fs) > 0.0
              && Abs(v.book.orders[id].avgPx - Notional(fs) / Volume(fs)) <= |fs| as real * ULP)
  {
    hide Reached, Volume, Notional, RunningAvg, Abs, Fills, BookState.WellKept, Chained;
    ReachedInv(kinds, cs);
    var v := Reached(kinds, cs);
    assert Traced(v, id);
    var rs := History(v.issued, id);
    if id in v.book.orders {
      ChainsConserve(rs);
      if Fills(rs) != [] {
        AvgPxErrorBound(Fills(rs));
      }
    }
  }
}
