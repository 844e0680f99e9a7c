/** What holds after any serialized run of the venue: the report history of every order, and the
    agreement between that history, the book and the session logs. */
module Runs {
  import opened Orders
  import opened Identifiers
  import opened Books
  import opened Messages
  import opened Venue

  /** The reports about one order, in the order they were published. */
  function History(issued: seq<Issued>, id: string): seq<Report> {
    if issued == [] then [] else
      var last := issued[|issued| - 1].report;
      History(issued[..|issued| - 1], id) + if last.order.terms.clOrdID == id then [last] else []
  }

  /** What actually went out: the reports that were not dropped, as built for the wire. */
  function Delivered(issued: seq<Issued>): seq<ExecReport> {
    if issued == [] then [] else
      var last := issued[|issued| - 1];
      Delivered(issued[..|issued| - 1]) + if last.dropped then [] else [Build(last.report)]
  }

  /** What a log holds besides holes. */
  function Sents(log: seq<Slot>): seq<ExecReport> {
    if log == [] then [] else
      Sents(log[..|log| - 1]) + match log[|log| - 1] { case Hole => [] case Sent(er) => [er] }
  }

  /** The change a report stands for. */
  function ChangeOf(r: Report): Change {
    match r.execType
    case ExecTrade => Trade(r.lastQty, r.lastPx)
    case ExecRejected => Close(Rejected)
    case _ => Close(Canceled)
  }

  /** The report acknowledges an order nothing has happened to yet. */
  ghost predicate Opens(r: Report) {
    r.execType == ExecNew && r.order.status == New && r.order.cumQty == 0.0 && r.order.avgPx == 0.0
  }

  /** The report describes a change the previous state of its order allowed. */
  ghost predicate Follows(prev: OrderState, r: Report) {
    && !r.execType.ExecNew?
    && Commanded(ChangeOf(r))
    && Apply(ChangeOf(r), prev) == Ok(r.order)
  }

  ghost predicate LinkAt(rs: seq<Report>, k: nat)
    requires k < |rs|
  {
    if k == 0 then Opens(rs[0]) else Follows(rs[k - 1].order, rs[k])
  }

  ghost predicate Chained(rs: seq<Report>) {
    forall k: nat :: k < |rs| ==> LinkAt(rs, k)
  }

  /** One order's history ends in its present state; an unknown ClOrdID has no history. */
  ghost predicate Traced(v: VenueState, id: string) {
    var rs := History(v.issued, id);
    if id in v.book.orders then rs != [] && Chained(rs) && rs[|rs| - 1].order == v.book.orders[id]
    else rs == []
  }

  ghost predicate Numbered(v: VenueState) {
    && |v.issued| == v.book.execSeq
    && (forall i :: 0 <= i < |v.issued| ==> v.issued[i].report.execID == ExecId(i + 1))
  }

  /** The invariant of every serialized run. */
  ghost predicate Inv(v: VenueState) {
    && v.book.WellKept()
    && v.book.AllSound()
    && Numbered(v)
    && (forall k :: k in v.logs ==> Sents(v.logs[k]) == Delivered(v.issued))
    && (forall id :: Traced(v, id))
  }

  /** Publishing a report about one order: `b` is the book after the change it reports. */
  lemma PublishKeepsInv(v: VenueState, b: BookState, id: string, r: Report)
    requires Inv(v)
    requires b.WellKept() && b.AllSound() && b.execSeq == v.book.execSeq
    requires b.orders == v.book.orders[id := r.order] && r.order.terms.clOrdID == id
    requires if id in v.book.orders then Follows(v.book.orders[id], r) else Opens(r)
    ensures Inv(Publish(v.(book := b), r))
  {
    hide Build, ExecId, OrderId, Apply, Commanded, ChangeOf, Opens, OrderState.Sound;
    var n := Publish(v.(book := b), r);
    PublishedHistory(v, b, r);
    forall k | k in n.logs ensures Sents(n.logs[k]) == Delivered(n.issued) {
      assert n.issued[..|v.issued|] == v.issued;
      if !v.silenced {
        assert n.logs[k][..|v.logs[k]|] == v.logs[k];
      }
    }
    forall other ensures Traced(n, other) {
      assert Traced(v, other);
      PublishTraces(v, b, id, r, other);
    }
  }

  lemma PublishedHistory(v: VenueState, b: BookState, r: Report)
    requires Numbered(v) && b.execSeq == v.book.execSeq
    ensures Numbered(Publish(v.(book := b), r))
  {
    hide Build, ExecId, Fanout;
  }

  lemma PublishTraces(v: VenueState, b: BookState, id: string, r: Report, other: string)
    requires Traced(v, other)
    requires b.orders == v.book.orders[id := r.order] && r.order.terms.clOrdID == id
    requires if id in v.book.orders then Follows(v.book.orders[id], r) else Opens(r)
    ensures Traced(Publish(v.(book := b), r), other)
  {
    hide Build, ExecId, Apply, Commanded, ChangeOf, Fanout;
    var n := Publish(v.(book := b), r);
    assert n.issued[..|v.issued|] == v.issued;
    var numbered := n.issued[|v.issued|].report;
    assert numbered == r.(execID := numbered.execID);
    SameChange(r, numbered.execID);
    var rs := History(v.issued, other);
    if other == id {
      assert History(n.issued, other) == rs + [numbered];
      ChainExtends(rs, numbered);
    } else {
      assert History(n.issued, other) == rs;
    }
  }

  lemma SameChange(r: Report, execID: string)
    ensures ChangeOf(r.(execID := execID)) == ChangeOf(r)
  {
  }

  lemma ChainExtends(rs: seq<Report>, r: Report)
    requires Chained(rs)
    requires if rs == [] then Opens(r) else Follows(rs[|rs| - 1].order, r)
    ensures Chained(rs + [r])
  {
    hide Opens, Follows;
    var all := rs + [r];
    forall k: nat | k < |all| ensures LinkAt(all, k) {
      if k < |rs| {
        assert LinkAt(rs, k);
      }
    }
  }

  /** A commanded change to one order keeps the invariant. The mass cancel's change has no guard of
      its own: its order must still be open. */
  lemma ChangeKeepsInv(v: VenueState, id: string, c: Change, reason: string)
    requires Inv(v) && Commanded(c)
    requires c.ForceCancel? ==> id in v.book.orders && v.book.orders[id].IsOpen()
    ensures Inv(DoChange(v, id, c, reason).state)
  {
    hide Publish, OrderId, OrderState.Sound, Numbered, History, Delivered;
    var updated := v.book.Update(id, c);
    if updated.Ok? {
      UpdateKeepsBook(v.book, id, c);
      var o := updated.value.orders[id];
      DescribeFollows(v.book.orders[id], c, reason);
      assert o.terms.clOrdID == id;
      PublishKeepsInv(v, updated.value, id, Describe(c, o, reason));
    }
  }

  lemma DescribeFollows(prev: OrderState, c: Change, reason: string)
    requires Commanded(c) && Apply(c, prev).Ok?
    requires c.ForceCancel? ==> prev.IsOpen()
    ensures Follows(prev, Describe(c, Apply(c, prev).value, reason))
  {
  }

  lemma NewOrderKeepsInv(v: VenueState, f: OrderFields)
    requires Inv(v)
    ensures Inv(DoNewOrder(v, f).state)
  {
    hide Publish, OrderId, History, Delivered;
    if Incomplete(f).None? && v.book.Insert(Received(f)).Ok? {
      var b := v.book.Insert(Received(f)).value;
      var id := f.clOrdID.value;
      assert Received(f).terms.clOrdID == id && Received(f).cumQty == 0.0;
      InsertKeepsBook(v.book, Received(f));
      PublishKeepsInv(v, b, id, NewAck(b.orders[id]));
    }
  }
}
