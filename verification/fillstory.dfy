/** Two facts about single orders under interleaving: a fill is all or nothing, and a terminal state
    is final but for one step of the mass cancel. */
module FillStory {
  import opened Orders
  import opened Identifiers
  import opened Books
  import opened AveragePrice
  import opened Interleaving

  /** Move `k` is a step of thread `t` that takes order `id` from open to Filled, trading all it had left at
      price `px`, in one trade. */
  ghost predicate FilledAt(ms: seq<Move>, k: nat, t: nat, id: string, px: real)
    requires k < |ms|
  {
    ms[k] == Step(t) && FillsWhole(Reached(ms[..k]), Reached(ms[..k + 1]), id, px)
  }

  ghost predicate FillsWhole(before: State, after: State, id: string, px: real) {
    && id in before.book.orders && id in after.book.orders
    && var o, n := before.book.orders[id], after.book.orders[id];
    && (o.status == New || o.status == PartiallyFilled)
    && n.status == Filled && n.cumQty == n.terms.orderQty == o.terms.orderQty
    && after.fills == before.fills + [Traded(id, Fill(o.terms.orderQty - o.cumQty, px))]
  }

  /** Move `k`, if it is a step of thread `t`, leaves every order as it was and trades nothing. */
  ghost predicate IdleAt(ms: seq<Move>, k: nat, t: nat)
    requires k < |ms|
  {
    ms[k] == Step(t) ==> SameTrades(Reached(ms[..k]), Reached(ms[..k + 1]))
  }

  predicate SameTrades(before: State, after: State) {
    after.book.orders == before.book.orders && after.fills == before.fills
  }

  ghost predicate IdleSince(ms: seq<Move>, k0: nat, t: nat) {
    forall k: nat :: k0 < k < |ms| ==> IdleAt(ms, k, t)
  }

  /** One step of the thread fills the order, and no other step of it does anything to any order. */
  ghost predicate FilledSince(ms: seq<Move>, k0: nat, t: nat, id: string, px: real) {
    exists k: nat :: k0 < k < |ms| && FilledAt(ms, k, t, id, px) && IdleBut(ms, k0, t, k)
  }

  ghost predicate IdleBut(ms: seq<Move>, k0: nat, t: nat, k: nat) {
    forall j: nat :: k0 < j < |ms| && j != k ==> IdleAt(ms, j, t)
  }

  predicate BeforeUpdate(pc: Pc, id: string, px: real) {
    match pc
    case FillGet(x, y) => x == id && y == px
    case TradeUpdate(x, _, y, ofFill) => x == id && y == px && ofFill
    case Done(ok) => !ok
    case _ => false
  }

  /** The report of a fill: the order Filled whole, at the price commanded. */
  predicate Tells(r: Report, id: string, px: real) {
    && r.execType == ExecTrade && r.order.terms.clOrdID == id && r.lastPx == px
    && r.order.status == Filled && r.order.cumQty == r.order.terms.orderQty
  }

  ghost predicate Told(s: State, id: string, px: real) {
    exists r :: r in s.numbered && Tells(r, id, px)
  }

  ghost predicate AfterUpdate(s: State, pc: Pc, id: string, px: real) {
    match pc
    case ReadSilenced(r, k) => k == Finish && Tells(r, id, px)
    case TakeExecID(r, _, k) => k == Finish && Tells(r, id, px)
    case SendOe(_, k) => k == Finish && Told(s, id, px)
    case SendDc(_, k) => k == Finish && Told(s, id, px)
    case Done(ok) => ok && Told(s, id, px)
    case _ => false
  }

  /** Thread `t` entered at move `k0` as a fill of order `id` at price `px`. */
  ghost predicate EnteredAsFill(ms: seq<Move>, k0: nat, t: nat, id: string, px: real) {
    && k0 < |ms| && ms[k0] == Enter(FillGet(id, px))
    && |Reached(ms[..k0]).threads| == t
  }

  /** One step of a fill: nothing happens to any order, or its own order is filled completely. */
  lemma FillStep(s: State, t: nat, id: string, px: real)
    requires BookInv(s) && t < |s.threads| && BeforeUpdate(s.threads[t], id, px)
    ensures |Run(s, t).threads| == |s.threads|
    ensures var n := Run(s, t);
      || (BeforeUpdate(n.threads[t], id, px) && SameTrades(s, n))
      || (AfterUpdate(n, n.threads[t], id, px) && FillsWhole(s, n, id, px))
  {
    hide BookState.WellKept, BookState.AllSound, OrderState.LeavesQty, Locked;
    match s.threads[t] {
      case TradeUpdate(_, qty, _, _) =>
        ThreadSound(s, t);
        if qty > 0.0 {
          FillUpdates(s, t, id, qty, px);
        }
      case _ =>
    }
  }

  lemma FillUpdates(s: State, t: nat, id: string, qty: real, px: real)
    requires BookInv(s) && t < |s.threads| && s.threads[t] == TradeUpdate(id, qty, px, true) && qty > 0.0
    ensures var n := Locked(s, t, id, Trade(qty, px), "", Finish);
      && |n.threads| == |s.threads|
      && (|| (BeforeUpdate(n.threads[t], id, px) && SameTrades(s, n))
          || (AfterUpdate(n, n.threads[t], id, px) && FillsWhole(s, n, id, px)))
  {
    hide BookState.WellKept, Averaged;
    ThreadSound(s, t);
    if s.book.Update(id, Trade(qty, px)).Ok? {
      OwnId(s.book, id);
      assert s.book.orders[id].Sound();
      TradingTheLeavesFills(qty, px, s.book.orders[id]);
    }
  }

  lemma NumberedGrows(s: State, m: Move)
    ensures s.numbered <= After(s, m).numbered
  {
    if m.Step? && m.thread < |s.threads| {
      var pc := s.threads[m.thread];
      if pc.TakeExecID? || pc.SendOe? || pc.SendDc? {
        hide ExecId;
      } else {
        StepLeavesLogs(s, m.thread, (r: Report) => 0.0);
        hide Run;
      }
    }
  }

  /** Once updated, a fill only has its report to see out. */
  lemma ReportStep(s: State, t: nat, id: string, px: real)
    requires t < |s.threads| && AfterUpdate(s, s.threads[t], id, px)
    ensures var n := Run(s, t);
      |n.threads| == |s.threads| && AfterUpdate(n, n.threads[t], id, px) && SameTrades(s, n)
  {
    hide ExecId;
    match s.threads[t] {
      case TakeExecID(r, _, _) =>
        var n := Run(s, t);
        assert n.numbered[|s.numbered|] in n.numbered && Tells(n.numbered[|s.numbered|], id, px);
      case _ =>
    }
  }

  lemma OthersKeepTheirPlace(s: State, m: Move, t: nat)
    requires t < |s.threads| && m != Step(t)
    ensures t < |After(s, m).threads| && After(s, m).threads[t] == s.threads[t]
  {
    hide Run;
    if m.Step? && m.thread < |s.threads| {
      RunMovesOnly(s, m.thread);
    }
  }

  /** A thread that does not move stays where it was in its story. */
  lemma StaysAfterUpdate(s: State, m: Move, t: nat, id: string, px: real)
    requires t < |s.threads| && AfterUpdate(s, s.threads[t], id, px) && m != Step(t)
    ensures var n := After(s, m); t < |n.threads| && AfterUpdate(n, n.threads[t], id, px)
  {
    hide After, Tells;
    OthersKeepTheirPlace(s, m, t);
    NumberedGrows(s, m);
  }

  /** Where the thread stands, and what it has done. */
  ghost predicate Story(ms: seq<Move>, k0: nat, t: nat, id: string, px: real) {
    var s := Reached(ms);
    && t < |s.threads|
    && (|| (BeforeUpdate(s.threads[t], id, px) && IdleSince(ms, k0, t))
        || (AfterUpdate(s, s.threads[t], id, px) && FilledSince(ms, k0, t, id, px)))
  }

  /** The story of a fill so far, by where its thread stands. */
  lemma {:induction false} FillStorySoFar(ms: seq<Move>, k0: nat, t: nat, id: string, px: real)
    requires EnteredAsFill(ms, k0, t, id, px)
    ensures Story(ms, k0, t, id, px)
    decreases |ms|
  {
    hide Reached, Run, After, IdleAt, Story;
    var n := |ms| - 1;
    ReachedStep(ms, n);
    assert ms[..n + 1] == ms;
    if k0 == n {
      FillEnters(Reached(ms[..n]), id, px);
      StoryStarts(ms, t, id, px);
    } else {
      assert ms[..n][..k0] == ms[..k0];
      FillStorySoFar(ms[..n], k0, t, id, px);
      ReachedBook(ms[..n]);
      StoryGoesOn(ms, k0, t, id, px);
    }
  }

  lemma FillEnters(s: State, id: string, px: real)
    ensures After(s, Enter(FillGet(id, px))) == Spawn(s, FillGet(id, px))
  {
  }

  lemma StoryStarts(ms: seq<Move>, t: nat, id: string, px: real)
    requires ms != [] && t < |Reached(ms).threads| && Reached(ms).threads[t] == FillGet(id, px)
    ensures Story(ms, |ms| - 1, t, id, px)
  {
    hide Reached;
  }

  lemma StoryGoesOn(ms: seq<Move>, k0: nat, t: nat, id: string, px: real)
    requires ms != [] && k0 < |ms| - 1 && Story(ms[..|ms| - 1], k0, t, id, px) && BookInv(Reached(ms[..|ms| - 1]))
    ensures Story(ms, k0, t, id, px)
  {
    hide Reached, Run, BookInv, BeforeUpdate, AfterUpdate, FillsWhole, SameTrades, IdleSince, FilledSince;
    var n := |ms| - 1;
    var past := ms[..n];
    var s := Reached(past);
    ReachedStep(ms, n);
    assert ms[..n + 1] == ms;
    if ms[n] == Step(t) {
      if BeforeUpdate(s.threads[t], id, px) && IdleSince(past, k0, t) {
        FillStep(s, t, id, px);
        IdleOrFilled(ms, k0, t, id, px);
      } else {
        ReportStep(s, t, id, px);
        FilledStays(ms, k0, t, id, px);
      }
    } else {
      OthersKeepTheirPlace(s, ms[n], t);
      if BeforeUpdate(s.threads[t], id, px) && IdleSince(past, k0, t) {
        IdleOrFilled(ms, k0, t, id, px);
      } else {
        StaysAfterUpdate(s, ms[n], t, id, px);
        FilledStays(ms, k0, t, id, px);
      }
    }
  }

  /** What a move did is the same story in every longer run. */
  lemma SameMove(ms: seq<Move>, n: nat, k: nat, t: nat, id: string, px: real)
    requires k < n <= |ms|
    ensures IdleAt(ms[..n], k, t) == IdleAt(ms, k, t) && FilledAt(ms[..n], k, t, id, px) == FilledAt(ms, k, t, id, px)
  {
    hide Reached, FillsWhole, SameTrades;
    assert ms[..n][..k] == ms[..k] && ms[..n][..k + 1] == ms[..k + 1];
  }

  /** An idle past, and a last move that is idle or fills the order. */
  lemma IdleOrFilled(ms: seq<Move>, k0: nat, t: nat, id: string, px: real)
    requires k0 < |ms| - 1 && IdleSince(ms[..|ms| - 1], k0, t)
    ensures IdleAt(ms, |ms| - 1, t) ==> IdleSince(ms, k0, t)
    ensures FilledAt(ms, |ms| - 1, t, id, px) ==> FilledSince(ms, k0, t, id, px)
  {
    hide FilledAt, IdleAt;
    var n := |ms| - 1;
    forall k: nat | k0 < k < n ensures IdleAt(ms, k, t) {
      assert IdleAt(ms[..n], k, t);
      SameMove(ms, n, k, t, id, px);
    }
    assert IdleBut(ms, k0, t, n);
  }

  lemma FilledStays(ms: seq<Move>, k0: nat, t: nat, id: string, px: real)
    requires ms != [] && FilledSince(ms[..|ms| - 1], k0, t, id, px) && IdleAt(ms, |ms| - 1, t)
    ensures FilledSince(ms, k0, t, id, px)
  {
    hide FilledAt, IdleAt;
    var n := |ms| - 1;
    var k: nat :| k0 < k < n && FilledAt(ms[..n], k, t, id, px) && IdleBut(ms[..n], k0, t, k);
    SameMove(ms, n, k, t, id, px);
    forall j: nat | k0 < j < |ms| && j != k ensures IdleAt(ms, j, t) {
      if j < n {
        assert IdleAt(ms[..n], j, t);
        SameMove(ms, n, j, t, id, px);
      }
    }
  }

  /** A fill is all or nothing under every interleaving. If it returned no error, one step of it took its order
      from open to Filled by a single trade of all that was left, at the price commanded, no other step of it
      touched any order, and its report was numbered. If it returned an error, no step of it changed any
      order. */
  lemma FillIsAllOrNothing(ms: seq<Move>, k0: nat, t: nat, id: string, px: real)
    requires EnteredAsFill(ms, k0, t, id, px)
    ensures var s := Reached(ms);
      && t < |s.threads|
      && (s.threads[t] == Done(true) ==> FilledSince(ms, k0, t, id, px) && Told(s, id, px))
      && (s.threads[t] == Done(false) ==> IdleSince(ms, k0, t))
  {
    hide Reached, IdleSince, FilledSince, EnteredAsFill, Told;
    FillStorySoFar(ms, k0, t, id, px);
  }

  /** Thread `t` is a mass cancel whose turn it is for order `id`. */
  predicate CancelsNext(s: State, t: nat, id: string)
    requires t < |s.threads|
  {
    s.threads[t].CancelUpdate? && s.threads[t].todo != [] && s.threads[t].todo[0] == id
  }

  /** A terminal order changes exactly when the mass cancel gets to it from an older snapshot and it
      was not Canceled already. */
  lemma TerminalChangesExactlyWhen(s: State, t: nat, id: string)
    requires t < |s.threads| && id in s.book.orders && !s.book.orders[id].IsOpen()
    ensures id in Run(s, t).book.orders
    ensures Run(s, t).book.orders[id] != s.book.orders[id]
            <==> CancelsNext(s, t, id) && s.book.orders[id].status != Canceled
  {
    hide BookState.WellKept, Describe, ExecId, OrderId, Averaged, SnapshotIds, BookState.OpenDay;
  }

  /** Even then its executed quantity and price stay. */
  lemma OnlyTheStatusMoves(s: State, t: nat, id: string)
    requires t < |s.threads| && id in s.book.orders && !s.book.orders[id].IsOpen()
    ensures var o, n := s.book.orders[id], Run(s, t).book.orders;
      id in n && (n[id] == o || n[id] == o.(status := Canceled))
  {
    hide BookState.WellKept, Describe, ExecId, OrderId, Averaged, SnapshotIds, BookState.OpenDay;
  }

  /** The order as the book first holds it, and a run that takes the mass cancel's snapshot of it. */
  function Inserted(o: OrderState): BookState {
    var id := o.terms.clOrdID;
    BookState([id], map[id := o.(orderID := OrderId(1), status := New)], 0)
  }

  function SnapshotOf(o: OrderState, reason: string): seq<Move> {
    [Enter(OrderInsert(o)), Step(0), Enter(TakeSnapshot(reason)), Step(1)]
  }

  lemma SnapshotTaken(o: OrderState, reason: string)
    requires o.cumQty == 0.0 && o.avgPx == 0.0 && o.IsDay()
    ensures var id := o.terms.clOrdID;
      Reached(SnapshotOf(o, reason))
        == EMPTY.(book := Inserted(o), threads := [AckRead(id), CancelUpdate([id], reason)])
  {
    hide OrderId, Onward, Reached;
    var id, ms := o.terms.clOrdID, SnapshotOf(o, reason);
    var s1 := EMPTY.(threads := [OrderInsert(o)]);
    assert After(EMPTY, ms[0]) == s1;
    OnwardStep(EMPTY, ms, 0);
    var s2 := EMPTY.(book := Inserted(o), threads := [AckRead(id)]);
    assert After(s1, ms[1]) == s2;
    OnwardStep(s1, ms, 1);
    var s3 := s2.(threads := [AckRead(id), TakeSnapshot(reason)]);
    assert After(s2, ms[2]) == s3;
    OnwardStep(s2, ms, 2);
    assert SnapshotIds(Inserted(o).OpenDayUpTo(1)) == [id] by {
      assert Inserted(o).OpenDayUpTo(0) == [];
    }
    OnwardStep(s3, ms, 3);
    OnwardEnds(After(s3, ms[3]), ms[4..]);
    NothingReached();
    ReachedOnward([], ms);
    assert [] + ms == ms && ms[0..] == ms;
  }

  /** The same run, with the order filled before the mass cancel gets to it. */
  function FilledMeanwhile(o: OrderState, px: real, reason: string): seq<Move> {
    SnapshotOf(o, reason) + [Enter(TradeUpdate(o.terms.clOrdID, o.terms.orderQty, px, false))] + [Step(2)]
  }

  /** "Terminal is final" is false of the code: any day order with a quantity can be filled whole and
      then marked Canceled. */
  lemma FilledCanBecomeCanceled(o: OrderState, px: real, reason: string)
    requires o.cumQty == 0.0 && o.avgPx == 0.0 && o.IsDay() && o.terms.orderQty > 0.0
    ensures var id, ms := o.terms.clOrdID, FilledMeanwhile(o, px, reason);
      var before, after := Reached(ms).book.orders, Reached(ms + [Step(1)]).book.orders;
      && id in before && before[id].status == Filled && before[id].cumQty == o.terms.orderQty
      && id in after && after[id] == before[id].(status := Canceled)
  {
    hide OrderId, ExecId, Averaged, SnapshotOf, Reached, Describe;
    var id := o.terms.clOrdID;
    var trade := TradeUpdate(id, o.terms.orderQty, px, false);
    var m0 := SnapshotOf(o, reason);
    SnapshotTaken(o, reason);
    ReachedMore(m0, Enter(trade));
    ReachedMore(m0 + [Enter(trade)], Step(2));
    ReachedMore(FilledMeanwhile(o, px, reason), Step(1));
  }
}
