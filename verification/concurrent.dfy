/** What holds of the venue under every interleaving. */
module Concurrent {
  import opened Decimals
  import opened Orders
  import opened Identifiers
  import opened Books
  import opened AveragePrice
  import opened Interleaving

  // ----- conservation -----

  /** The traded quantity in a session's log, plus what was dropped, plus what threads have yet to
      number, or to send there, is what the order has executed. */
  ghost predicate Accounted(s: State, log: seq<Report>, unsent: Stage, id: string) {
    var q := TradeOf(id);
    Executed(s.book, id)
      == Sum(log, q) + Pending(s.threads, unsent, q) + Sum(s.dropped, q) + Pending(s.threads, Unnumbered, q)
  }

  /** At every moment, for each order and each session. */
  lemma TradedQuantityIsConserved(ms: seq<Move>, id: string)
    ensures Accounted(Reached(ms), Reached(ms).oe, UnsentOe, id)
    ensures Accounted(Reached(ms), Reached(ms).dc, UnsentDc, id)
  {
    hide BookInv, NumberInv, Sum, Pending, Reached;
    ReachedInv(ms);
    var s := Reached(ms);
    assert LogLaw(s, TradeOf(id));
    assert TradeInvOf(s, id);
  }

  /** And that lies between nothing and the order quantity; an order without a positive quantity
      never trades. */
  lemma ExecutedStaysInBounds(ms: seq<Move>, id: string)
    requires id in Reached(ms).book.orders
    ensures var o := Reached(ms).book.orders[id];
      0.0 <= o.cumQty && (o.cumQty <= o.terms.orderQty || o.cumQty == 0.0)
  {
    hide NumberInv, LogInv, TradeInv, BookState.WellKept, Reached;
    ReachedInv(ms);
  }

  ghost predicate Quiet(s: State) {
    forall t :: 0 <= t < |s.threads| ==> s.threads[t].Done?
  }

  lemma {:induction false} NothingPending(ts: seq<Pc>, g: Stage, w: Weight)
    requires forall t :: 0 <= t < |ts| ==> ts[t].Done?
    ensures Pending(ts, g, w) == 0.0
  {
    if ts != [] {
      NothingPending(ts[..|ts| - 1], g, w);
    }
  }

  /** Once nothing is in flight and nothing was dropped, each log sums to the book. */
  lemma QuietLogsSumToTheBook(ms: seq<Move>, id: string)
    ensures var s := Reached(ms);
      Quiet(s) && s.dropped == [] ==>
        Sum(s.oe, TradeOf(id)) == Executed(s.book, id) == Sum(s.dc, TradeOf(id))
  {
    hide Reached, Executed;
    var s := Reached(ms);
    TradedQuantityIsConserved(ms, id);
    if Quiet(s) {
      NothingPending(s.threads, UnsentOe, TradeOf(id));
      NothingPending(s.threads, UnsentDc, TradeOf(id));
      NothingPending(s.threads, Unnumbered, TradeOf(id));
    }
  }

  /** The LastQty (tag 32) of a built report about one order; zero where there is none. */
  function WireTradeOf(id: string): Weight {
    (r: Report) =>
      if Build(r).lastQty.Some? && Build(r).clOrdID == id then Build(r).lastQty.value else 0.0
  }

  ghost predicate WholeQuantities(rs: seq<Report>) {
    forall i :: 0 <= i < |rs| ==> OnGrid(rs[i].lastQty, QTY_SCALE)
  }

  /** On the wire quantities are whole: a log of whole trades sums to the same there. */
  lemma {:induction false} WholeQuantitiesSurviveTheWire(rs: seq<Report>, id: string)
    requires WholeQuantities(rs)
    ensures Sum(rs, WireTradeOf(id)) == Sum(rs, TradeOf(id))
  {
    if rs != [] {
      var r := rs[|rs| - 1];
      WholeQuantitiesSurviveTheWire(rs[..|rs| - 1], id);
      RoundFixesExactlyTheGrid(r.lastQty, QTY_SCALE);
      hide OnGrid, Round;
      assert Build(r).clOrdID == r.order.terms.clOrdID;
    }
  }

  lemma AveragesItsFills(ms: seq<Move>, id: string)
    ensures var s, fs := Reached(ms), FillsOf(Reached(ms).fills, id);
      && Positive(fs)
      && (id in s.book.orders ==>
            s.book.orders[id].cumQty == Volume(fs) && s.book.orders[id].avgPx == RunningAvg(fs))
  {
    hide BookState.WellKept, NumberInv, LogInv, Sum, Pending, Reached, Volume, RunningAvg;
    ReachedInv(ms);
    assert TradeInvOf(Reached(ms), id);
  }

  /** AvgPx under every interleaving is within one rounding per fill of the true mean. */
  lemma AvgPxUnderInterleaving(ms: seq<Move>, id: string)
    ensures var s, fs := Reached(ms), FillsOf(Reached(ms).fills, id);
      id in s.book.orders && fs != [] ==>
        && Volume(fs) == s.book.orders[id].cumQty > 0.0
        && Abs(s.book.orders[id].avgPx - Notional(fs) / Volume(fs)) <= |fs| as real * ULP
  {
    hide Reached, Volume, Notional, RunningAvg, Abs, FillsOf;
    AveragesItsFills(ms, id);
    var fs := FillsOf(Reached(ms).fills, id);
    if fs != [] {
      AvgPxErrorBound(fs);
    }
  }

  /** And between the rounded lowest and highest fill price. */
  lemma AvgPxRangeUnderInterleaving(ms: seq<Move>, id: string, lo: real, hi: real)
    ensures var s, fs := Reached(ms), FillsOf(Reached(ms).fills, id);
      id in s.book.orders && fs != [] && Within(fs, lo, hi) ==>
        Round(lo, DIVISION_SCALE) <= s.book.orders[id].avgPx <= Round(hi, DIVISION_SCALE)
  {
    hide Reached, Volume, RunningAvg, FillsOf, Within, Round;
    AveragesItsFills(ms, id);
    var fs := FillsOf(Reached(ms).fills, id);
    if fs != [] && Within(fs, lo, hi) {
      AvgPxStaysInRange(fs, lo, hi);
    }
  }

  // ----- exactly once -----

  function CountOf(execID: string): Weight {
    (r: Report) => if r.execID == execID then 1.0 else 0.0
  }

  function Is(x: Report): Weight {
    (r: Report) => if r == x then 1.0 else 0.0
  }

  ghost predicate NonNegative(w: Weight) {
    forall r: Report :: w(r) >= 0.0
  }

  lemma {:induction false} SumIsNonNegative(rs: seq<Report>, w: Weight)
    requires NonNegative(w)
    ensures Sum(rs, w) >= 0.0
    ensures forall i :: 0 <= i < |rs| ==> Sum(rs, w) >= w(rs[i])
  {
    if rs != [] {
      SumIsNonNegative(rs[..|rs| - 1], w);
      forall i | 0 <= i < |rs| ensures Sum(rs, w) >= w(rs[i]) {
        if i < |rs| - 1 {
          assert rs[..|rs| - 1][i] == rs[i];
        }
      }
    }
  }

  lemma {:induction false} TwoPlacesCountTwice(rs: seq<Report>, w: Weight, i: nat, j: nat)
    requires NonNegative(w) && i < j < |rs|
    ensures Sum(rs, w) >= w(rs[i]) + w(rs[j])
  {
    var before := rs[..|rs| - 1];
    if j == |rs| - 1 {
      SumIsNonNegative(before, w);
      assert before[i] == rs[i];
    } else {
      TwoPlacesCountTwice(before, w, i, j);
    }
  }

  lemma {:induction false} NothingCounted(rs: seq<Report>, w: Weight)
    requires forall i :: 0 <= i < |rs| ==> w(rs[i]) == 0.0
    ensures Sum(rs, w) == 0.0
  {
    if rs != [] {
      NothingCounted(rs[..|rs| - 1], w);
    }
  }

  lemma {:induction false} PendingIsNonNegative(ts: seq<Pc>, g: Stage, w: Weight)
    requires NonNegative(w)
    ensures Pending(ts, g, w) >= 0.0
  {
    if ts != [] {
      PendingIsNonNegative(ts[..|ts| - 1], g, w);
    }
  }

  ghost predicate Sequenced(rs: seq<Report>) {
    forall i :: 0 <= i < |rs| ==> rs[i].execID == ExecId(i + 1)
  }

  lemma {:induction false} NumberedOnce(rs: seq<Report>, execID: string)
    requires Sequenced(rs)
    ensures Sum(rs, CountOf(execID)) <= 1.0
  {
    hide ExecId;
    if rs != [] {
      var n := |rs| - 1;
      var before := rs[..n];
      NumberedOnce(before, execID);
      if rs[n].execID == execID {
        forall i | 0 <= i < n ensures CountOf(execID)(before[i]) == 0.0 {
          VenueIdsInjective(i + 1, n + 1);
        }
        NothingCounted(before, CountOf(execID));
      }
    }
  }

  lemma SequenceIsDistinct(rs: seq<Report>, i: nat, j: nat)
    requires Sequenced(rs) && i < |rs| && j < |rs|
    ensures rs[i].execID == rs[j].execID <==> i == j
  {
    hide ExecId;
    VenueIdsInjective(i + 1, j + 1);
  }

  lemma Totals(s: State, w: Weight)
    requires Inv(s) && NonNegative(w)
    ensures Sum(s.oe, w) <= Sum(s.numbered, w) && Sum(s.dc, w) <= Sum(s.numbered, w)
  {
    hide BookInv, NumberInv, TradeInv, Sum, Pending;
    assert LogLaw(s, w);
    SumIsNonNegative(s.dropped, w);
    PendingIsNonNegative(s.threads, UnsentOe, w);
    PendingIsNonNegative(s.threads, UnsentDc, w);
  }

  /** No session log ever carries an ExecID twice. */
  lemma ExecIdsNeverRepeat(ms: seq<Move>, i: nat, j: nat)
    ensures var s := Reached(ms);
      && (i < |s.oe| && j < |s.oe| && s.oe[i].execID == s.oe[j].execID ==> i == j)
      && (i < |s.dc| && j < |s.dc| && s.dc[i].execID == s.dc[j].execID ==> i == j)
  {
    hide Reached, Sum;
    ReachedInv(ms);
    var s := Reached(ms);
    assert Sequenced(s.numbered);
    hide Inv;
    InLogOnce(s, s.oe, i, j);
    InLogOnce(s, s.dc, i, j);
  }

  lemma InLogOnce(s: State, log: seq<Report>, i: nat, j: nat)
    requires Inv(s) && (log == s.oe || log == s.dc) && Sequenced(s.numbered)
    ensures i < |log| && j < |log| && log[i].execID == log[j].execID ==> i == j
  {
    hide Inv, Sum, Sequenced;
    if i < |log| && j < |log| && i != j && log[i].execID == log[j].execID {
      var x := log[i].execID;
      var lo, hi := if i < j then i else j, if i < j then j else i;
      Totals(s, CountOf(x));
      NumberedOnce(s.numbered, x);
      TwoPlacesCountTwice(log, CountOf(x), lo, hi);
      assert false;
    }
  }

  lemma LoggedIsNumbered(s: State, r: Report)
    requires Inv(s) && (r in s.oe || r in s.dc)
    ensures r in s.numbered
  {
    hide Inv, Sum;
    Totals(s, Is(r));
    SumIsNonNegative(s.oe, Is(r));
    SumIsNonNegative(s.dc, Is(r));
    assert Sum(s.numbered, Is(r)) >= 1.0;
    if r !in s.numbered {
      NothingCounted(s.numbered, Is(r));
    }
  }

  /** The same ExecID on the two sessions is the same report. */
  lemma SessionsAgreePerExecId(ms: seq<Move>, i: nat, j: nat)
    ensures var s := Reached(ms);
      i < |s.oe| && j < |s.dc| && s.oe[i].execID == s.dc[j].execID ==> s.oe[i] == s.dc[j]
  {
    hide Reached, ExecId, BookInv, LogInv, TradeInv;
    ReachedInv(ms);
    var s := Reached(ms);
    if i < |s.oe| && j < |s.dc| && s.oe[i].execID == s.dc[j].execID {
      LoggedIsNumbered(s, s.oe[i]);
      LoggedIsNumbered(s, s.dc[j]);
      var a: nat :| a < |s.numbered| && s.numbered[a] == s.oe[i];
      var b: nat :| b < |s.numbered| && s.numbered[b] == s.dc[j];
      SequenceIsDistinct(s.numbered, a, b);
    }
  }

  lemma {:induction false} MultiplicityIsSum(rs: seq<Report>, r: Report)
    ensures multiset(rs)[r] as real == Sum(rs, Is(r))
  {
    if rs != [] {
      MultiplicityIsSum(rs[..|rs| - 1], r);
      assert rs == rs[..|rs| - 1] + [rs[|rs| - 1]];
    }
  }

  /** Once nothing is in flight the two logs hold the same reports, perhaps in another order: all
      that were numbered, less those dropped. */
  lemma QuietLogsArePermutations(ms: seq<Move>)
    ensures var s := Reached(ms);
      Quiet(s) ==> multiset(s.oe) == multiset(s.dc) && multiset(s.oe) + multiset(s.dropped) == multiset(s.numbered)
  {
    hide Reached, BookInv, NumberInv, TradeInv, Sum, Pending, Is;
    ReachedInv(ms);
    var s := Reached(ms);
    if Quiet(s) {
      forall r: Report
        ensures multiset(s.oe)[r] == multiset(s.dc)[r]
        ensures multiset(s.oe)[r] + multiset(s.dropped)[r] == multiset(s.numbered)[r]
      {
        assert LogLaw(s, Is(r));
        NothingPending(s.threads, UnsentOe, Is(r));
        NothingPending(s.threads, UnsentDc, Is(r));
        MultiplicityIsSum(s.oe, r);
        MultiplicityIsSum(s.dc, r);
        MultiplicityIsSum(s.dropped, r);
        MultiplicityIsSum(s.numbered, r);
      }
    }
  }
}
