/** Recovery: what the order-entry client makes of a stretch of its session's log, and of a suffix of
    it sent again marked PossDup. */
module Recovery {
  import opened Decimals
  import opened Orders
  import opened Identifiers
  import opened Books
  import opened Messages
  import opened Venue
  import opened Runs
  import opened Clients
  import Reachable
  import MassCancel

  function ViewOf(er: ExecReport): OrderView {
    OrderView(er.clOrdID, er.ordStatus, er.cumQty, er.leavesQty, er.avgPx, er.execID)
  }

  /** What the client should believe about an order whose last event was `execID`. */
  function WireView(o: OrderState, execID: string): OrderView {
    OrderView(o.terms.clOrdID, o.status, Round(o.cumQty, QTY_SCALE), Round(o.LeavesQty(), QTY_SCALE),
              Round(o.avgPx, PX_SCALE), execID)
  }

  /** The view built from scratch from these reports: the last one about each order. */
  function Views(ers: seq<ExecReport>): map<string, OrderView> {
    if ers == [] then map[] else
      Views(ers[..|ers| - 1])[ers[|ers| - 1].clOrdID := ViewOf(ers[|ers| - 1])]
  }

  lemma {:induction false} ViewsConcat(a: seq<ExecReport>, b: seq<ExecReport>)
    ensures Views(a + b) == Views(a) + Views(b)
  {
    if b == [] {
      assert a + b == a;
    } else {
      ViewsConcat(a, b[..|b| - 1]);
      assert (a + b)[..|a + b| - 1] == a + b[..|b| - 1];
    }
  }

  lemma {:induction false} SentsConcat(a: seq<Slot>, b: seq<Slot>)
    ensures Sents(a + b) == Sents(a) + Sents(b)
  {
    if b == [] {
      assert a + b == a;
    } else {
      SentsConcat(a, b[..|b| - 1]);
      assert (a + b)[..|a + b| - 1] == a + b[..|b| - 1];
    }
  }

  /** The view of a stretch of the log. */
  function LogView(log: seq<Slot>, from: nat, to: nat): map<string, OrderView>
    requires from <= to <= |log|
  {
    Views(Sents(log[from..to]))
  }

  lemma LogViewSplits(log: seq<Slot>, from: nat, mid: nat, to: nat)
    requires from <= mid <= to <= |log|
    ensures LogView(log, from, to) == LogView(log, from, mid) + LogView(log, mid, to)
  {
    assert log[from..to] == log[from..mid] + log[mid..to];
    SentsConcat(log[from..mid], log[mid..to]);
    ViewsConcat(Sents(log[from..mid]), Sents(log[mid..to]));
  }

  /** The client takes a stretch of the log; holes reach it as nothing. */
  function OeTake(s: OeState, slots: seq<Slot>, possDup: bool): OeState {
    if slots == [] then s else
      var before := OeTake(s, slots[..|slots| - 1], possDup);
      match slots[|slots| - 1]
      case Hole => before
      case Sent(er) => OeReport(before, FieldsOf(er), possDup)
  }

  lemma ReportAssigns(s: OeState, er: ExecReport, possDup: bool)
    ensures OeReport(s, FieldsOf(er), possDup)
         == OeState(s.orders[er.clOrdID := ViewOf(er)], s.replays + if possDup then 1 else 0)
  {
  }

  lemma OneMore(ers: seq<ExecReport>, er: ExecReport)
    ensures Views(ers + [er]) == Views(ers)[er.clOrdID := ViewOf(er)]
  {
    hide ViewOf;
    assert (ers + [er])[..|ers|] == ers;
  }

  /** One more report over what the client had. */
  lemma ViewsAppend(had: map<string, OrderView>, ers: seq<ExecReport>, er: ExecReport)
    ensures had + Views(ers + [er]) == (had + Views(ers))[er.clOrdID := ViewOf(er)]
  {
    hide ViewOf, Views;
    OneMore(ers, er);
  }

  lemma {:induction false} TakingAssigns(s: OeState, slots: seq<Slot>, possDup: bool)
    ensures OeTake(s, slots, possDup)
         == OeState(s.orders + Views(Sents(slots)), s.replays + if possDup then |Sents(slots)| else 0)
  {
    hide OeReport, FieldsOf, ViewOf, Views;
    if slots == [] {
      NoViews(s.orders);
    } else {
      var before := slots[..|slots| - 1];
      TakingAssigns(s, before, possDup);
      match slots[|slots| - 1]
      case Hole =>
        assert Sents(before) + [] == Sents(before);
      case Sent(er) =>
        ReportAssigns(OeTake(s, before, possDup), er, possDup);
        ViewsAppend(s.orders, Sents(before), er);
    }
  }

  lemma NoViews(had: map<string, OrderView>)
    ensures had + Views([]) == had
  {
  }

  /** Sending a stretch again over what was already taken adds only what was missing. */
  lemma ResendMerges(log: seq<Slot>, low: nat, next: nat, from: nat)
    requires low <= next <= |log| && from <= next
    ensures LogView(log, low, next) + LogView(log, from, |log|)
         == LogView(log, if from < low then from else low, |log|)
  {
    hide LogView;
    LogViewSplits(log, from, next, |log|);
    if from < low {
      LogViewSplits(log, from, low, next);
    } else {
      LogViewSplits(log, low, from, next);
      LogViewSplits(log, low, from, |log|);
    }
  }

  ghost predicate Appended(v: VenueState, w: VenueState) {
    w.logs.Keys == v.logs.Keys && forall k :: k in v.logs ==> v.logs[k] <= w.logs[k]
  }

  lemma PublishAppends(v: VenueState, r: Report)
    ensures Appended(v, Publish(v, r))
  {
    hide Build, ExecId;
  }

  lemma ChangeAppends(v: VenueState, id: string, c: Change, reason: string)
    ensures Appended(v, DoChange(v, id, c, reason).state)
  {
    hide Apply, Publish, Describe;
    var updated := v.book.Update(id, c);
    if updated.Ok? {
      PublishAppends(v.(book := updated.value), Describe(c, updated.value.orders[id], reason));
    }
  }

  lemma NewOrderAppends(v: VenueState, f: OrderFields)
    ensures Appended(v, DoNewOrder(v, f).state)
  {
    hide Publish;
    if Incomplete(f).None? && v.book.Insert(Received(f)).Ok? {
      var b := v.book.Insert(Received(f)).value;
      PublishAppends(v.(book := b), NewAck(b.orders[f.clOrdID.value]));
    }
  }

  /** Logs only grow. */
  lemma StepAppends(v: VenueState, c: Command)
    requires Inv(v)
    ensures Appended(v, Step(v, c))
  {
    hide Inv, DoChange, DoNewOrder, DoCancelAll, BookState.WellKept;
    match c {
      case Inbound(kind, body) =>
        if body.NewOrderSingle? {
          NewOrderAppends(v, body.order);
        }
      case Fill(id, px) =>
        if id in v.book.orders {
          ChangeAppends(v, id, Trade(v.book.orders[id].LeavesQty(), px), "");
        }
      case Partial(id, qty, px) => ChangeAppends(v, id, Trade(qty, px), "");
      case Cancel(id, reason) => ChangeAppends(v, id, Close(Canceled), reason);
      case Reject(id, reason) => ChangeAppends(v, id, Close(Rejected), reason);
      case CancelAll(reason) => CancelAppends(v, reason);
      case Expire(i, at) =>
        if CanExpire(v, i, at) {
          var fired := v.(timers := v.timers[..i] + v.timers[i + 1..]);
          Reachable.SameBookAndReports(v, fired);
          CancelAppends(fired, CodReason(v.timers[i].kind));
        }
      case _ =>
    }
  }

  lemma CancelAppends(v: VenueState, reason: string)
    requires Inv(v)
    ensures Appended(v, DoCancelAll(v, reason))
  {
    hide Inv, OrderId, BookState.WellKept, DoCancelAll, MassCancel.StruckUpTo, MassCancel.Notices, MassCancel.WireSlots;
    MassCancel.CancelAllReports(v, reason);
  }

  ghost predicate Mentions(ers: seq<ExecReport>, id: string) {
    exists i :: 0 <= i < |ers| && ers[i].clOrdID == id
  }

  lemma {:induction false} ViewsKnow(ers: seq<ExecReport>, id: string)
    ensures id in Views(ers) <==> Mentions(ers, id)
  {
    if ers != [] {
      var n := |ers| - 1;
      ViewsKnow(ers[..n], id);
      if i :| 0 <= i < n && ers[..n][i].clOrdID == id {
        assert ers[i].clOrdID == id;
      }
      if i :| 0 <= i < n && ers[i].clOrdID == id {
        assert ers[..n][i].clOrdID == id;
      }
    }
  }

  /** The last of these reports about an order. */
  function LastEr(ers: seq<ExecReport>, id: string): Option<ExecReport> {
    if ers == [] then None
    else if ers[|ers| - 1].clOrdID == id then Some(ers[|ers| - 1])
    else LastEr(ers[..|ers| - 1], id)
  }

  lemma {:induction false} ViewsAreLast(ers: seq<ExecReport>, id: string)
    ensures var last := LastEr(ers, id);
      && (id in Views(ers) <==> last.Some?)
      && (last.Some? ==> Views(ers)[id] == ViewOf(last.value))
  {
    hide ViewOf;
    if ers != [] {
      ViewsAreLast(ers[..|ers| - 1], id);
    }
  }

  /** The last report about an order, dropped or not. */
  function LastIssued(issued: seq<Issued>, id: string): Option<Issued> {
    if issued == [] then None
    else if issued[|issued| - 1].report.order.terms.clOrdID == id then Some(issued[|issued| - 1])
    else LastIssued(issued[..|issued| - 1], id)
  }

  ghost predicate NumberedFrom1(issued: seq<Issued>) {
    forall i :: 0 <= i < |issued| ==> issued[i].report.execID == ExecId(i + 1)
  }

  ghost predicate IdAmong(execID: string, n: nat) {
    exists k: nat :: 1 <= k <= n && execID == ExecId(k)
  }

  /** Views carry ExecIDs that were issued. */
  lemma {:induction false} ViewsCarryIssuedIds(issued: seq<Issued>, id: string)
    requires NumberedFrom1(issued)
    ensures var vs := Views(Delivered(issued)); id in vs ==> IdAmong(vs[id].lastExecID, |issued|)
  {
    hide ExecId;
    if issued != [] {
      var n := |issued| - 1;
      var before := issued[..n];
      ViewsCarryIssuedIds(before, id);
      DeliveredStep(issued);
      var vs := Views(Delivered(issued));
      if !issued[n].dropped && issued[n].report.order.terms.clOrdID == id {
        assert vs[id].lastExecID == ExecId(n + 1);
      } else if id in vs {
        assert IdAmong(vs[id].lastExecID, n);
      }
    }
  }

  /** What the client makes of a report, as built. */
  lemma BuiltView(r: Report)
    ensures var er := Build(r);
      er.clOrdID == r.order.terms.clOrdID && er.execID == r.execID && ViewOf(er) == WireView(r.order, r.execID)
  {
    hide Round, OrderState.LeavesQty;
  }

  lemma DeliveredStep(issued: seq<Issued>)
    requires issued != []
    ensures var n := |issued| - 1; var r := issued[n].report;
      Views(Delivered(issued)) == if issued[n].dropped then Views(Delivered(issued[..n]))
        else Views(Delivered(issued[..n]))[r.order.terms.clOrdID := WireView(r.order, r.execID)]
  {
    var n := |issued| - 1;
    var ds := Delivered(issued[..n]);
    BuiltView(issued[n].report);
    hide Build, ViewOf, WireView, Views;
    if issued[n].dropped {
      assert ds + [] == ds;
    } else {
      OneMore(ds, Build(issued[n].report));
    }
  }

  /** The view built from everything that went out shows an order's last event exactly when that
      event's report was not dropped. */
  lemma {:induction false} LastWord(issued: seq<Issued>, id: string)
    requires NumberedFrom1(issued)
    ensures var vs, last := Views(Delivered(issued)), LastIssued(issued, id);
      && (id in vs ==> last.Some?)
      && (last.Some? && !last.value.dropped ==>
            id in vs && vs[id] == WireView(last.value.report.order, last.value.report.execID))
      && (last.Some? && last.value.dropped && id in vs ==> vs[id].lastExecID != last.value.report.execID)
  {
    hide ExecId, WireView;
    if issued != [] {
      var n := |issued| - 1;
      LastWord(issued[..n], id);
      DeliveredStep(issued);
      var last := issued[n];
      if last.report.order.terms.clOrdID == id && last.dropped && id in Views(Delivered(issued)) {
        ViewsCarryIssuedIds(issued[..n], id);
        var k: nat :| 1 <= k <= n && Views(Delivered(issued))[id].lastExecID == ExecId(k);
        VenueIdsInjective(k, n + 1);
      }
    }
  }

  lemma {:induction false} LastIssuedEndsHistory(issued: seq<Issued>, id: string)
    ensures var last, rs := LastIssued(issued, id), History(issued, id);
      && (last.Some? <==> rs != [])
      && (last.Some? ==> last.value.report == rs[|rs| - 1])
  {
    if issued != [] {
      LastIssuedEndsHistory(issued[..|issued| - 1], id);
    }
  }
}
