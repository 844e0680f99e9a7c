/** The uninterrupted mass cancel: exactly the working day orders, one report each. */
module MassCancel {
  import opened Orders
  import opened Identifiers
  import opened Books
  import opened Venue
  import opened Runs

  function Struck(o: OrderState): OrderState {
    if o.IsOpen() && o.IsDay() then o.(status := Canceled) else o
  }

  /** The orders after the first `n` positions of the book have been dealt with. */
  ghost function StruckUpTo(b: BookState, n: nat): map<string, OrderState>
    requires n <= |b.ids|
  {
    map id | id in b.orders :: if id in b.ids[..n] then Struck(b.orders[id]) else b.orders[id]
  }

  /** The report of one cancelled order: the restatement reason says the venue did it. */
  function Notice(o: OrderState, reason: string, execNo: nat, dropped: bool): Issued {
    Issued(Report(o.(status := Canceled), ExecCanceled, 0.0, 0.0, reason, RESTATEMENT_COD, ExecId(execNo)), dropped)
  }

  /** One notice per cancelled order, their ExecIDs following `from` without a gap. */
  function Notices(os: seq<OrderState>, reason: string, from: nat, dropped: bool): (ns: seq<Issued>)
    ensures |ns| == |os|
    ensures forall k :: 0 <= k < |os| ==> ns[k] == Notice(os[k], reason, from + k + 1, dropped)
  {
    seq(|os|, k requires 0 <= k < |os| => Notice(os[k], reason, from + k + 1, dropped))
  }

  function WireSlots(ns: seq<Issued>): (slots: seq<Slot>)
    ensures |slots| == |ns| && forall k :: 0 <= k < |ns| ==> slots[k] == Sent(Build(ns[k].report))
  {
    seq(|ns|, k requires 0 <= k < |ns| => Sent(Build(ns[k].report)))
  }

  lemma OneMoreNotice(os: seq<OrderState>, o: OrderState, reason: string, from: nat, dropped: bool)
    ensures var ns, more := Notices(os, reason, from, dropped), Notice(o, reason, from + |os| + 1, dropped);
      && Notices(os + [o], reason, from, dropped) == ns + [more]
      && WireSlots(ns + [more]) == WireSlots(ns) + [Sent(Build(more.report))]
  {
    hide Notice, Build;
  }

  /** The state a mass cancel of the snapshot `os`, the open day orders of the first `n`, leads to. */
  ghost predicate Cancelled(v: VenueState, n: nat, reason: string, w: VenueState)
    requires n <= |v.book.ids|
  {
    var os := v.book.OpenDayUpTo(n);
    var notices := Notices(os, reason, v.book.execSeq, v.silenced);
    && w == v.(book := BookState(v.book.ids, StruckUpTo(v.book, n), v.book.execSeq + |os|),
               issued := v.issued + notices,
               logs := w.logs)
    && w.logs.Keys == v.logs.Keys
    && (forall k :: k in v.logs ==>
          w.logs[k] == v.logs[k] + if v.silenced then [] else WireSlots(notices))
  }

  lemma {:induction false} CancelPrefix(v: VenueState, n: nat, reason: string)
    requires Inv(v) && n <= |v.book.ids|
    ensures var w := DoCancelEach(v, v.book.OpenDayUpTo(n), reason); Inv(w) && Cancelled(v, n, reason, w)
  {
    hide Inv, OrderId, DoChange, Cancelled;
    InvIsWellKept(v);
    if n == 0 {
      NothingCancelled(v, reason);
    } else {
      CancelPrefix(v, n - 1, reason);
      var w := DoCancelEach(v, v.book.OpenDayUpTo(n - 1), reason);
      var o := v.book.orders[v.book.ids[n - 1]];
      if o.IsOpen() && o.IsDay() {
        var os := v.book.OpenDayUpTo(n - 1);
        assert (os + [o])[..|os|] == os;
        StillOpen(v, n, reason, w);
        ChangeKeepsInv(w, o.terms.clOrdID, ForceCancel, reason);
        CancelOne(v, n, reason, w);
      } else {
        SkipOne(v, n, reason, w);
      }
    }
  }

  lemma NothingCancelled(v: VenueState, reason: string)
    requires v.book.WellKept()
    ensures Cancelled(v, 0, reason, v)
  {
    hide Build, Notice, OrderId, BookState.WellKept;
    assert StruckUpTo(v.book, 0) == v.book.orders;
    assert v.issued + Notices([], reason, v.book.execSeq, v.silenced) == v.issued;
  }

  lemma SkipOne(v: VenueState, n: nat, reason: string, w: VenueState)
    requires v.book.WellKept() && 0 < n <= |v.book.ids| && Cancelled(v, n - 1, reason, w)
    requires var o := v.book.orders[v.book.ids[n - 1]]; !o.IsOpen() || !o.IsDay()
    ensures Cancelled(v, n, reason, w) && v.book.OpenDayUpTo(n) == v.book.OpenDayUpTo(n - 1)
  {
    hide Build, Notice, OrderId;
    StruckStep(v.book, n);
    hide StruckUpTo, BookState.WellKept;
    assert v.book.OpenDayUpTo(n - 1) + [] == v.book.OpenDayUpTo(n - 1);
  }

  lemma InvIsWellKept(v: VenueState)
    requires Inv(v)
    ensures v.book.WellKept() && v.book.AllSound()
  {
  }

  /** The order at a position is not listed before it, and positions cover one order each. */
  lemma FirstMention(b: BookState, n: nat)
    requires b.WellKept() && 0 < n <= |b.ids|
    ensures b.ids[n - 1] !in b.ids[..n - 1]
    ensures forall id :: id in b.ids[..n] <==> id in b.ids[..n - 1] || id == b.ids[n - 1]
  {
    hide OrderId;
    if b.ids[n - 1] in b.ids[..n - 1] {
      var i :| 0 <= i < n - 1 && b.ids[i] == b.ids[n - 1];
      IdsAreDistinct(b, i, n - 1);
    }
    assert b.ids[..n] == b.ids[..n - 1] + [b.ids[n - 1]];
  }

  /** The order whose turn it is has not been touched by the cancels before it. */
  lemma StillOpen(v: VenueState, n: nat, reason: string, w: VenueState)
    requires v.book.WellKept() && 0 < n <= |v.book.ids| && Cancelled(v, n - 1, reason, w)
    ensures var id := v.book.ids[n - 1];
      id in w.book.orders && w.book.orders[id] == v.book.orders[id] && v.book.orders[id].terms.clOrdID == id
  {
    hide Notices, WireSlots;
    StruckStep(v.book, n);
  }

  lemma CancelOne(v: VenueState, n: nat, reason: string, w: VenueState)
    requires v.book.WellKept() && 0 < n <= |v.book.ids| && Cancelled(v, n - 1, reason, w)
    requires v.book.orders[v.book.ids[n - 1]].IsOpen() && v.book.orders[v.book.ids[n - 1]].IsDay()
    ensures Cancelled(v, n, reason, DoChange(w, v.book.ids[n - 1], ForceCancel, reason).state)
  {
    hide Build, ExecId, OrderId, StruckUpTo, Notices, WireSlots, OrderState.IsDay;
    var o := v.book.orders[v.book.ids[n - 1]];
    StillOpen(v, n, reason, w);
    StruckStep(v.book, n);
    hide BookState.WellKept;
    OneMoreNotice(v.book.OpenDayUpTo(n - 1), o, reason, v.book.execSeq, v.silenced);
  }

  lemma StruckStep(b: BookState, n: nat)
    requires b.WellKept() && 0 < n <= |b.ids|
    ensures var id := b.ids[n - 1];
      && id in StruckUpTo(b, n - 1) && StruckUpTo(b, n - 1)[id] == b.orders[id]
      && StruckUpTo(b, n) == StruckUpTo(b, n - 1)[id := Struck(b.orders[id])]
      && (Struck(b.orders[id]) == b.orders[id] ==> StruckUpTo(b, n) == StruckUpTo(b, n - 1))
  {
    hide OrderId, Struck;
    FirstMention(b, n);
  }

  /** The whole mass cancel reports each cancelled order once, in insertion order, under the ExecIDs
      that follow, and keeps the invariant. */
  lemma CancelAllReports(v: VenueState, reason: string)
    requires Inv(v)
    ensures Inv(DoCancelAll(v, reason)) && Cancelled(v, |v.book.ids|, reason, DoCancelAll(v, reason))
  {
    hide Inv, Cancelled;
    CancelPrefix(v, |v.book.ids|, reason);
  }

  /** Exactly the working day orders become Canceled, and nothing else about any order moves. */
  lemma CancelAllOpenDay(v: VenueState, reason: string)
    requires Inv(v)
    ensures var b, n := v.book, DoCancelAll(v, reason).book;
      && n.ids == b.ids && n.orders.Keys == b.orders.Keys
      && (forall id :: id in b.orders ==> n.orders[id] == Struck(b.orders[id]))
  {
    hide Inv, OrderId, Notices, WireSlots, StruckUpTo, DoCancelAll;
    CancelAllReports(v, reason);
    InvIsWellKept(v);
    EveryOrderStruck(v.book);
  }

  lemma EveryOrderStruck(b: BookState)
    requires b.WellKept()
    ensures var m := StruckUpTo(b, |b.ids|);
      m.Keys == b.orders.Keys && forall id :: id in b.orders ==> m[id] == Struck(b.orders[id])
  {
    hide OrderId, Struck;
    assert b.ids[..|b.ids|] == b.ids;
  }

  /** A second mass cancel, for whatever reason, finds nothing to do. */
  lemma SecondCancelIsIdle(v: VenueState, reason: string, again: string)
    requires Inv(v)
    ensures var w := DoCancelAll(v, reason);
      w.book.OpenDay() == [] && DoCancelAll(w, again) == w
  {
    hide Inv, OrderId, Struck, DoCancelEach;
    CancelAllOpenDay(v, reason);
    InvIsWellKept(v);
    var w := DoCancelAll(v, reason);
    NothingLeft(v.book, w.book, |v.book.ids|);
    CancelNothing(w, again);
  }

  lemma CancelNothing(w: VenueState, reason: string)
    ensures DoCancelEach(w, [], reason) == w
  {
  }

  lemma {:induction false} NothingLeft(b: BookState, c: BookState, n: nat)
    requires b.WellKept() && c.ids == b.ids && n <= |b.ids|
    requires forall id :: id in b.orders ==> id in c.orders && c.orders[id] == Struck(b.orders[id])
    ensures c.OpenDayUpTo(n) == []
  {
    hide OrderId;
    if n > 0 {
      NothingLeft(b, c, n - 1);
    }
  }
}
