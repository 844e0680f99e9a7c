/** The venue at the granularity of its locks: any number of commands in flight, each one lock
    section at a time. HTTP handlers, the session goroutine and cancel-on-disconnect timers are
    all threads here; a timer's window is the time its thread waits before its first step. */
module Interleaving {
  import opened Orders
  import opened Identifiers
  import opened Books
  import opened Messages
  import opened AveragePrice
  import Venue

  /** What a thread does once its report is out: finish, or go on with its mass cancel. */
  datatype Next = Finish | Resume(todo: seq<string>, reason: string)

  /** Where a thread is: about to take the lock, or make the send, the constructor names. */
  datatype Pc =
    | FillGet(id: string, px: real)
    | TradeUpdate(id: string, qty: real, px: real, ofFill: bool)
    | CloseUpdate(id: string, to: Status, reason: string)
    | OrderInsert(order: OrderState)
    | AckRead(id: string)
    | ReadLoggedOn(kind: Kind, reason: string)
    | TakeSnapshot(reason: string)
    | CancelUpdate(todo: seq<string>, reason: string)
    | ReadSilenced(r: Report, next: Next)
    | TakeExecID(r: Report, silenced: bool, next: Next)
    | SendOe(r: Report, next: Next)
    | SendDc(r: Report, next: Next)
    | Done(ok: bool)

  datatype Traded = Traded(id: string, fill: Fill)

  /** `armed` are the sessions whose last accepted Logon asked for cancel-on-disconnect. `oe` and `dc`
      are the session logs; the last three fields are history: the reports in the order of their
      ExecIDs, those dropped by silence, and the fills in the order of their updates. */
  datatype State = State(
    book: BookState,
    silenced: bool,
    loggedOn: set<Kind>,
    armed: set<Kind>,
    threads: seq<Pc>,
    oe: seq<Report>,
    dc: seq<Report>,
    numbered: seq<Report>,
    dropped: seq<Report>,
    fills: seq<Traded>)

  const EMPTY := State(EMPTY_BOOK, false, {}, {}, [], [], [], [], [], [])

  function AfterReport(k: Next): Pc {
    match k
    case Finish => Done(true)
    case Resume(todo, reason) => CancelUpdate(todo, reason)
  }

  function SnapshotIds(os: seq<OrderState>): (ids: seq<string>)
    ensures |ids| == |os| && forall i :: 0 <= i < |os| ==> ids[i] == os[i].terms.clOrdID
  {
    seq(|os|, i requires 0 <= i < |os| => os[i].terms.clOrdID)
  }

  function Goto(s: State, t: nat, pc: Pc): State
    requires t < |s.threads|
  {
    s.(threads := s.threads[t := pc])
  }

  /** A locked update: a failure ends the command, a success goes on to report it. */
  function Locked(s: State, t: nat, id: string, c: Change, reason: string, k: Next): State
    requires t < |s.threads|
  {
    match s.book.Update(id, c)
    case Err(_) => Goto(s, t, if k.Finish? then Done(false) else AfterReport(k))
    case Ok(b) =>
      Goto(s, t, ReadSilenced(Describe(c, b.orders[id], reason), k))
        .(book := b,
          fills := s.fills + if c.Trade? then [Traded(id, Fill(c.qty, c.px))] else [])
  }

  /** The next lock section of thread `t`. */
  function Run(s: State, t: nat): State
    requires t < |s.threads|
  {
    match s.threads[t]
    case FillGet(id, px) =>
      Goto(s, t, if id in s.book.orders then TradeUpdate(id, s.book.orders[id].LeavesQty(), px, true) else Done(false))
    case TradeUpdate(id, qty, px, _) =>
      if qty <= 0.0 then Goto(s, t, Done(false)) else Locked(s, t, id, Trade(qty, px), "", Finish)
    case CloseUpdate(id, to, reason) => Locked(s, t, id, Close(to), reason, Finish)
    case OrderInsert(o) =>
      (match s.book.Insert(o)
       case Err(_) => Goto(s, t, Done(false))
       case Ok(b) => Goto(s, t, AckRead(o.terms.clOrdID)).(book := b))
    case AckRead(id) =>
      // the acknowledgement copies the order after Insert has let go of the lock
      Goto(s, t, if id in s.book.orders then ReadSilenced(NewAck(s.book.orders[id]), Finish) else Done(false))
    case ReadLoggedOn(kind, reason) =>
      Goto(s, t, if kind in s.loggedOn then Done(true) else TakeSnapshot(reason))
    case TakeSnapshot(reason) => Goto(s, t, CancelUpdate(SnapshotIds(s.book.OpenDay()), reason))
    case CancelUpdate(todo, reason) =>
      if todo == [] then Goto(s, t, Done(true))
      else Locked(s, t, todo[0], ForceCancel, reason, Resume(todo[1..], reason))
    case ReadSilenced(r, k) => Goto(s, t, TakeExecID(r, s.silenced, k))
    case TakeExecID(r, silenced, k) =>
      var n := r.(execID := ExecId(s.book.execSeq + 1));
      var taken := s.(book := s.book.(execSeq := s.book.execSeq + 1), numbered := s.numbered + [n]);
      if silenced then Goto(taken, t, AfterReport(k)).(dropped := s.dropped + [n]) else Goto(taken, t, SendOe(n, k))
    case SendOe(r, k) => Goto(s, t, SendDc(r, k)).(oe := s.oe + [r])
    case SendDc(r, k) => Goto(s, t, AfterReport(k)).(dc := s.dc + [r])
    case Done(_) => s
  }

  /** The flags a step reads but never writes, and every thread but its own. */
  ghost predicate MovesOnly(s: State, n: State, t: nat)
    requires t < |s.threads|
  {
    && |n.threads| == |s.threads| && n.threads == s.threads[t := n.threads[t]]
    && n.silenced == s.silenced && n.loggedOn == s.loggedOn && n.armed == s.armed
  }

  lemma LockedMovesOnly(s: State, t: nat, id: string, c: Change, reason: string, k: Next)
    requires t < |s.threads|
    ensures MovesOnly(s, Locked(s, t, id, c, reason, k), t)
  {
    hide BookState.Update, Describe;
  }

  lemma RunMovesOnly(s: State, t: nat)
    requires t < |s.threads|
    ensures MovesOnly(s, Run(s, t), t)
  {
    hide Locked, BookState.Insert, BookState.OpenDay, SnapshotIds, OrderState.LeavesQty, NewAck, ExecId;
    match s.threads[t] {
      case TradeUpdate(id, qty, px, _) => LockedMovesOnly(s, t, id, Trade(qty, px), "", Finish);
      case CloseUpdate(id, to, reason) => LockedMovesOnly(s, t, id, Close(to), reason, Finish);
      case CancelUpdate(todo, reason) =>
        if todo != [] {
          LockedMovesOnly(s, t, todo[0], ForceCancel, reason, Resume(todo[1..], reason));
        }
      case _ =>
    }
  }

  /** How a command enters the venue. */
  predicate Entry(pc: Pc) {
    match pc
    case FillGet(_, _) => true
    case TradeUpdate(_, _, _, ofFill) => !ofFill
    case CloseUpdate(_, to, _) => to == Canceled || to == Rejected
    case OrderInsert(o) => o.cumQty == 0.0 && o.avgPx == 0.0
    case TakeSnapshot(_) => true
    case _ => false
  }

  /** `Arm` is an accepted Logon message, by whether it asks for cancel-on-disconnect. */
  datatype Move =
    | Enter(pc: Pc)
    | Toggle(silenced: bool)
    | Arm(kind: Kind, on: bool)
    | Logon(kind: Kind)
    | Logout(kind: Kind)
    | Step(thread: nat)

  function Spawn(s: State, pc: Pc): State {
    s.(threads := s.threads + [pc])
  }

  function TimerOf(kind: Kind): Pc {
    ReadLoggedOn(kind, Venue.CodReason(kind))
  }

  function After(s: State, m: Move): State {
    match m
    case Enter(pc) => if Entry(pc) then Spawn(s, pc) else s
    case Toggle(on) => s.(silenced := on)
    case Arm(kind, on) => s.(armed := if on then s.armed + {kind} else s.armed - {kind})
    case Logon(kind) => s.(loggedOn := s.loggedOn + {kind})
    case Logout(kind) =>
      var down := s.(loggedOn := s.loggedOn - {kind});
      if kind in s.armed then Spawn(down, TimerOf(kind)) else down
    case Step(t) => if t < |s.threads| then Run(s, t) else s
  }

  // ----- weights: one law that counts, sums and compares reports -----

  type Weight = Report -> real

  function Sum(rs: seq<Report>, w: Weight): real {
    if rs == [] then 0.0 else Sum(rs[..|rs| - 1], w) + w(rs[|rs| - 1])
  }

  /** The reports a thread still holds: not yet numbered, or numbered and not yet sent. */
  datatype Stage = Unnumbered | UnsentOe | UnsentDc

  function Held(pc: Pc, g: Stage, w: Weight): real {
    match pc
    case ReadSilenced(r, _) => if g.Unnumbered? then w(r) else 0.0
    case TakeExecID(r, _, _) => if g.Unnumbered? then w(r) else 0.0
    case SendOe(r, _) => if g.Unnumbered? then 0.0 else w(r)
    case SendDc(r, _) => if g.UnsentDc? then w(r) else 0.0
    case _ => 0.0
  }

  function Pending(ts: seq<Pc>, g: Stage, w: Weight): real {
    if ts == [] then 0.0 else Pending(ts[..|ts| - 1], g, w) + Held(ts[|ts| - 1], g, w)
  }

  lemma {:induction false} PendingMoves(ts: seq<Pc>, t: nat, pc: Pc, g: Stage, w: Weight)
    requires t < |ts|
    ensures Pending(ts[t := pc], g, w) == Pending(ts, g, w) - Held(ts[t], g, w) + Held(pc, g, w)
  {
    hide Held;
    var n := |ts| - 1;
    if t < n {
      PendingMoves(ts[..n], t, pc, g, w);
      assert ts[t := pc][..n] == ts[..n][t := pc];
    } else {
      assert ts[t := pc][..n] == ts[..n];
    }
  }

  lemma SumAppend(rs: seq<Report>, r: Report, w: Weight)
    ensures Sum(rs + [r], w) == Sum(rs, w) + w(r)
  {
    assert (rs + [r])[..|rs|] == rs;
  }

  /** The traded quantity a report announces for one order. */
  function TradeOf(id: string): Weight {
    (r: Report) => if r.execType.ExecTrade? && r.order.terms.clOrdID == id then r.lastQty else 0.0
  }

  function Executed(b: BookState, id: string): real {
    if id in b.orders then b.orders[id].cumQty else 0.0
  }

  function FillsOf(fills: seq<Traded>, id: string): seq<Fill> {
    if fills == [] then [] else
      var last := fills[|fills| - 1];
      FillsOf(fills[..|fills| - 1], id) + if last.id == id then [last.fill] else []
  }

  // ----- the invariant -----

  ghost predicate PcSound(b: BookState, pc: Pc) {
    match pc
    case TradeUpdate(id, qty, _, ofFill) =>
      ofFill && qty > 0.0 ==> id in b.orders && b.orders[id].LeavesQty() <= qty
    case CloseUpdate(_, to, _) => to == Canceled || to == Rejected
    case OrderInsert(o) => o.cumQty == 0.0 && o.avgPx == 0.0
    case _ => true
  }

  ghost predicate BookInv(s: State) {
    && s.book.WellKept() && s.book.AllSound()
    && (forall t :: 0 <= t < |s.threads| ==> PcSound(s.book, s.threads[t]))
  }

  ghost predicate NumberInv(s: State) {
    && |s.numbered| == s.book.execSeq
    && (forall i :: 0 <= i < |s.numbered| ==> s.numbered[i].execID == ExecId(i + 1))
  }

  /** Every numbered report is in the log, dropped, or held by a thread that has yet to send it. */
  ghost predicate LogLaw(s: State, w: Weight) {
    && Sum(s.oe, w) + Pending(s.threads, UnsentOe, w) + Sum(s.dropped, w) == Sum(s.numbered, w)
    && Sum(s.dc, w) + Pending(s.threads, UnsentDc, w) + Sum(s.dropped, w) == Sum(s.numbered, w)
  }

  /** The law holds under any weight, so it counts reports, sums them and tells them apart. */
  ghost predicate LogInv(s: State) {
    forall w: Weight :: LogLaw(s, w)
  }

  ghost predicate TradeInv(s: State) {
    forall id :: TradeInvOf(s, id)
  }

  /** What an order executed is what its trade reports announce, numbered or about to be; and its
      average is that of its fills. */
  ghost predicate TradeInvOf(s: State, id: string) {
    var fs := FillsOf(s.fills, id);
    && Executed(s.book, id) == Sum(s.numbered, TradeOf(id)) + Pending(s.threads, Unnumbered, TradeOf(id))
    && Positive(fs)
    && Executed(s.book, id) == Volume(fs)
    && (id !in s.book.orders ==> fs == [])
    && (id in s.book.orders ==> s.book.orders[id].avgPx == RunningAvg(fs))
  }

  ghost predicate Inv(s: State) {
    BookInv(s) && NumberInv(s) && LogInv(s) && TradeInv(s)
  }

  // ----- every move keeps it -----

  /** Orders stay, and no order's positive leaves grow. */
  ghost predicate Shrinks(b: BookState, n: BookState) {
    forall id :: id in b.orders ==>
      id in n.orders && (n.orders[id].LeavesQty() <= b.orders[id].LeavesQty() || n.orders[id].LeavesQty() == 0.0)
  }

  lemma PcSoundSurvives(b: BookState, n: BookState, pc: Pc)
    requires PcSound(b, pc) && Shrinks(b, n)
    ensures PcSound(n, pc)
  {
    hide OrderState.LeavesQty;
  }

  /** Thread `t` moves on while the book becomes `n`. */
  lemma BookInvMoves(s: State, n: BookState, t: nat, pc: Pc, w: State)
    requires BookInv(s) && t < |s.threads|
    requires n.WellKept() && n.AllSound() && Shrinks(s.book, n)
    requires PcSound(n, pc)
    requires w.book == n && w.threads == s.threads[t := pc]
    ensures BookInv(w)
  {
    hide PcSound, BookState.WellKept, BookState.AllSound, Shrinks;
    forall k | 0 <= k < |w.threads| ensures PcSound(n, w.threads[k]) {
      if k != t {
        PcSoundSurvives(s.book, n, s.threads[k]);
      }
    }
  }

  lemma SameBookShrinks(b: BookState)
    ensures Shrinks(b, b)
  {
  }

  lemma UpdateShrinks(b: BookState, id: string, c: Change)
    requires b.WellKept() && b.AllSound() && Commanded(c) && b.Update(id, c).Ok?
    ensures var n := b.Update(id, c).value; n.WellKept() && n.AllSound() && Shrinks(b, n)
  {
    hide OrderId, OrderState.LeavesQty, OrderState.Sound;
    UpdateKeepsBook(b, id, c);
    ApplyKeepsSound(c, b.orders[id]);
    hide BookState.WellKept;
  }

  lemma InsertShrinks(b: BookState, o: OrderState)
    requires b.WellKept() && b.AllSound() && o.cumQty == 0.0 && b.Insert(o).Ok?
    ensures var n := b.Insert(o).value; n.WellKept() && n.AllSound() && Shrinks(b, n)
  {
    hide OrderId, OrderState.LeavesQty, OrderState.Sound;
    InsertKeepsBook(b, o);
    hide BookState.WellKept;
  }

  lemma LockedKeepsBookInv(s: State, t: nat, id: string, c: Change, reason: string, k: Next)
    requires BookInv(s) && t < |s.threads| && Commanded(c)
    ensures BookInv(Locked(s, t, id, c, reason, k))
  {
    hide BookState.WellKept, BookState.AllSound, Shrinks, Apply, Describe;
    var w := Locked(s, t, id, c, reason, k);
    if s.book.Update(id, c).Ok? {
      UpdateShrinks(s.book, id, c);
    } else {
      SameBookShrinks(s.book);
    }
    BookInvMoves(s, w.book, t, w.threads[t], w);
  }

  lemma RunKeepsBookInv(s: State, t: nat)
    requires BookInv(s) && t < |s.threads|
    ensures BookInv(Run(s, t))
  {
    hide BookState.WellKept, Shrinks, Locked, BookInv, ExecId;
    var w := Run(s, t);
    match s.threads[t] {
      case TradeUpdate(id, qty, px, _) =>
        if qty > 0.0 {
          LockedKeepsBookInv(s, t, id, Trade(qty, px), "", Finish);
        } else {
          StayBookInv(s, t);
        }
      case CloseUpdate(id, to, reason) =>
        assert PcSound(s.book, s.threads[t]) by { ThreadSound(s, t); }
        LockedKeepsBookInv(s, t, id, Close(to), reason, Finish);
      case CancelUpdate(todo, reason) =>
        if todo != [] {
          LockedKeepsBookInv(s, t, todo[0], ForceCancel, reason, Resume(todo[1..], reason));
        } else {
          StayBookInv(s, t);
        }
      case OrderInsert(o) =>
        if s.book.Insert(o).Ok? {
          ThreadSound(s, t);
          BookIsSound(s);
          InsertShrinks(s.book, o);
          BookInvMoves(s, w.book, t, w.threads[t], w);
        } else {
          StayBookInv(s, t);
        }
      case TakeExecID(r, silenced, k) => RenumberBookInv(s, t);
      case Done(_) =>
      case _ => StayBookInv(s, t);
    }
  }

  lemma ThreadSound(s: State, t: nat)
    requires BookInv(s) && t < |s.threads|
    ensures PcSound(s.book, s.threads[t])
  {
  }

  /** Steps that leave the book alone. */
  lemma StayBookInv(s: State, t: nat)
    requires BookInv(s) && t < |s.threads|
    requires Run(s, t).book == s.book && !s.threads[t].Done? && !s.threads[t].TakeExecID?
    ensures BookInv(Run(s, t))
  {
    hide BookState.WellKept, BookState.AllSound, Shrinks;
    var w := Run(s, t);
    SameBookShrinks(s.book);
    BookInvMoves(s, s.book, t, w.threads[t], w);
  }

  lemma RenumberBookInv(s: State, t: nat)
    requires BookInv(s) && t < |s.threads| && s.threads[t].TakeExecID?
    ensures BookInv(Run(s, t))
  {
    hide ExecId, OrderId, OrderState.Sound;
    var w := Run(s, t);
    BookInvMoves(s, w.book, t, w.threads[t], w);
  }

  lemma RunKeepsNumberInv(s: State, t: nat)
    requires NumberInv(s) && t < |s.threads|
    ensures NumberInv(Run(s, t))
  {
    hide ExecId, OrderId, Apply, Describe, BookState.WellKept;
  }

  /** Every step but a numbering or a send leaves the logs alone, and no numbered report in hand. */
  lemma StepLeavesLogs(s: State, t: nat, w: Weight)
    requires t < |s.threads|
    requires !s.threads[t].TakeExecID? && !s.threads[t].SendOe? && !s.threads[t].SendDc?
    ensures var n := Run(s, t);
      && n.oe == s.oe && n.dc == s.dc && n.dropped == s.dropped && n.numbered == s.numbered
      && |n.threads| == |s.threads| && n.threads == s.threads[t := n.threads[t]]
    ensures forall g :: g != Unnumbered ==> Held(s.threads[t], g, w) == Held(Run(s, t).threads[t], g, w) == 0.0
  {
    hide BookState.Update, BookState.Insert, BookState.OpenDay, Describe, SnapshotIds, OrderState.LeavesQty, NewAck;
  }

  lemma RunKeepsLogLaw(s: State, t: nat, w: Weight)
    requires LogLaw(s, w) && t < |s.threads|
    ensures LogLaw(Run(s, t), w)
  {
    hide ExecId, Sum, Pending, Locked, BookState.Insert, BookState.OpenDay, OrderState.LeavesQty, NewAck;
    var n := Run(s, t);
    match s.threads[t] {
      case TakeExecID(r, silenced, k) =>
        PendingMoves(s.threads, t, n.threads[t], UnsentOe, w);
        PendingMoves(s.threads, t, n.threads[t], UnsentDc, w);
        SumAppend(s.numbered, n.numbered[|s.numbered|], w);
        SumAppend(s.dropped, n.numbered[|s.numbered|], w);
      case SendOe(r, k) =>
        PendingMoves(s.threads, t, n.threads[t], UnsentOe, w);
        PendingMoves(s.threads, t, n.threads[t], UnsentDc, w);
        SumAppend(s.oe, r, w);
      case SendDc(r, k) =>
        PendingMoves(s.threads, t, n.threads[t], UnsentOe, w);
        PendingMoves(s.threads, t, n.threads[t], UnsentDc, w);
        SumAppend(s.dc, r, w);
      case _ =>
        hide Run, Held;
        StepLeavesLogs(s, t, w);
        PendingMoves(s.threads, t, n.threads[t], UnsentOe, w);
        PendingMoves(s.threads, t, n.threads[t], UnsentDc, w);
    }
  }

  lemma RunKeepsLogInv(s: State, t: nat)
    requires LogInv(s) && t < |s.threads|
    ensures LogInv(Run(s, t))
  {
    hide LogLaw, Run, BookState.WellKept;
    forall w: Weight ensures LogLaw(Run(s, t), w) {
      RunKeepsLogLaw(s, t, w);
    }
  }

  lemma FillsAppend(fills: seq<Traded>, x: Traded, id: string)
    ensures FillsOf(fills + [x], id) == if x.id == id then FillsOf(fills, id) + [x.fill] else FillsOf(fills, id)
  {
    assert (fills + [x])[..|fills|] == fills;
  }

  /** A locked update executes exactly what its report announces. */
  lemma LockedKeepsTrades(s: State, t: nat, id: string, c: Change, reason: string, k: Next, other: string)
    requires TradeInvOf(s, other) && t < |s.threads|
    requires s.book.WellKept() && s.book.AllSound() && Commanded(c)
    requires Held(s.threads[t], Unnumbered, TradeOf(other)) == 0.0
    ensures TradeInvOf(Locked(s, t, id, c, reason, k), other)
  {
    hide BookState.WellKept, BookState.AllSound, Sum, Pending, Volume, RunningAvg, Apply, Positive, Describe;
    if s.book.Update(id, c).Err? {
      PendingMoves(s.threads, t, Locked(s, t, id, c, reason, k).threads[t], Unnumbered, TradeOf(other));
    } else if c.Trade? {
      LockedTrade(s, t, id, c.qty, c.px, reason, k, other);
    } else {
      LockedClose(s, t, id, c, reason, k, other);
    }
  }

  lemma LockedTrade(s: State, t: nat, id: string, qty: real, px: real, reason: string, k: Next, other: string)
    requires TradeInvOf(s, other) && t < |s.threads|
    requires s.book.WellKept() && s.book.AllSound() && qty > 0.0 && s.book.Update(id, Trade(qty, px)).Ok?
    requires Held(s.threads[t], Unnumbered, TradeOf(other)) == 0.0
    ensures TradeInvOf(Locked(s, t, id, Trade(qty, px), reason, k), other)
  {
    hide BookState.WellKept, OrderState.Sound, Sum, Pending, Volume, RunningAvg, Apply, Positive, FillsOf;
    var o := s.book.orders[id];
    var n := Locked(s, t, id, Trade(qty, px), reason, k);
    OwnId(s.book, id);
    ApplyKeepsSound(Trade(qty, px), o);
    hide BookState.AllSound;
    PendingMoves(s.threads, t, n.threads[t], Unnumbered, TradeOf(other));
    FillsAppend(s.fills, Traded(id, Fill(qty, px)), other);
    if other == id {
      TradedAverage(FillsOf(s.fills, id), o, qty, px);
    }
  }

  lemma LockedClose(s: State, t: nat, id: string, c: Change, reason: string, k: Next, other: string)
    requires TradeInvOf(s, other) && t < |s.threads|
    requires s.book.WellKept() && !c.Trade? && s.book.Update(id, c).Ok?
    requires Held(s.threads[t], Unnumbered, TradeOf(other)) == 0.0
    ensures TradeInvOf(Locked(s, t, id, c, reason, k), other)
  {
    hide BookState.WellKept, OrderState.Sound, Sum, Pending, Volume, RunningAvg, Apply, Positive;
    var n := Locked(s, t, id, c, reason, k);
    PendingMoves(s.threads, t, n.threads[t], Unnumbered, TradeOf(other));
    CloseKeepsAverage(c, s.book.orders[id]);
    assert n.fills == s.fills;
  }

  lemma OwnId(b: BookState, id: string)
    requires b.WellKept() && id in b.orders
    ensures b.orders[id].terms.clOrdID == id
  {
  }

  lemma CloseKeepsAverage(c: Change, o: OrderState)
    requires !c.Trade? && Apply(c, o).Ok?
    ensures Apply(c, o).value.avgPx == o.avgPx && Apply(c, o).value.cumQty == o.cumQty
  {
  }

  lemma TradedAverage(fs: seq<Fill>, o: OrderState, qty: real, px: real)
    requires Positive(fs) && o.cumQty == Volume(fs) && o.avgPx == RunningAvg(fs)
    requires qty > 0.0 && Apply(Trade(qty, px), o).Ok?
    ensures var gs, n := fs + [Fill(qty, px)], Apply(Trade(qty, px), o).value;
      Positive(gs) && n.cumQty == Volume(gs) && n.avgPx == RunningAvg(gs)
  {
    hide Averaged;
    assert (fs + [Fill(qty, px)])[..|fs|] == fs;
  }

  /** A step that touches neither orders nor fills nor numbering moves no traded quantity. */
  lemma StepLeavesTrades(s: State, t: nat, id: string)
    requires TradeInvOf(s, id) && t < |s.threads|
    requires var pc := s.threads[t];
      || pc.FillGet? || pc.AckRead? || pc.ReadLoggedOn? || pc.TakeSnapshot?
      || pc.ReadSilenced? || pc.SendOe? || pc.SendDc?
    ensures TradeInvOf(Run(s, t), id)
  {
    hide Sum, Pending, Volume, RunningAvg, Positive, FillsOf, BookState.OpenDay, SnapshotIds, OrderState.LeavesQty,
      Locked, ExecId, BookState.Insert;
    PendingMoves(s.threads, t, Run(s, t).threads[t], Unnumbered, TradeOf(id));
  }

  lemma NumberingKeepsTrades(s: State, t: nat, id: string)
    requires TradeInvOf(s, id) && t < |s.threads| && s.threads[t].TakeExecID?
    ensures TradeInvOf(Run(s, t), id)
  {
    hide Sum, Pending, Volume, RunningAvg, Positive, FillsOf, ExecId;
    var n := Run(s, t);
    PendingMoves(s.threads, t, n.threads[t], Unnumbered, TradeOf(id));
    SumAppend(s.numbered, n.numbered[|s.numbered|], TradeOf(id));
  }

  lemma InsertKeepsTrades(s: State, t: nat, id: string)
    requires TradeInvOf(s, id) && t < |s.threads| && s.threads[t].OrderInsert? && PcSound(s.book, s.threads[t])
    ensures TradeInvOf(Run(s, t), id)
  {
    hide Sum, Pending, Volume, RunningAvg, Positive, FillsOf, OrderId;
    PendingMoves(s.threads, t, Run(s, t).threads[t], Unnumbered, TradeOf(id));
    EmptyAverages();
  }

  lemma RefusalKeepsTrades(s: State, t: nat, pc: Pc, id: string)
    requires TradeInvOf(s, id) && t < |s.threads|
    requires Held(s.threads[t], Unnumbered, TradeOf(id)) == Held(pc, Unnumbered, TradeOf(id)) == 0.0
    ensures TradeInvOf(Goto(s, t, pc), id)
  {
    hide Sum, Pending, Volume, RunningAvg, Positive, FillsOf;
    PendingMoves(s.threads, t, pc, Unnumbered, TradeOf(id));
  }

  lemma RunKeepsTrades(s: State, t: nat, id: string)
    requires BookInv(s) && TradeInvOf(s, id) && t < |s.threads|
    ensures TradeInvOf(Run(s, t), id)
  {
    BookIsSound(s);
    ThreadSound(s, t);
    hide BookInv, BookState.WellKept, BookState.AllSound, Locked, TradeInvOf, OrderState.LeavesQty, ExecId,
      BookState.OpenDay;
    match s.threads[t] {
      case TradeUpdate(x, qty, px, _) =>
        if qty > 0.0 {
          LockedKeepsTrades(s, t, x, Trade(qty, px), "", Finish, id);
        } else {
          RefusalKeepsTrades(s, t, Done(false), id);
        }
      case CloseUpdate(x, to, reason) => LockedKeepsTrades(s, t, x, Close(to), reason, Finish, id);
      case CancelUpdate(todo, reason) =>
        if todo != [] {
          LockedKeepsTrades(s, t, todo[0], ForceCancel, reason, Resume(todo[1..], reason), id);
        } else {
          RefusalKeepsTrades(s, t, Done(true), id);
        }
      case OrderInsert(o) => InsertKeepsTrades(s, t, id);
      case TakeExecID(r, silenced, k) => NumberingKeepsTrades(s, t, id);
      case Done(_) =>
      case _ => StepLeavesTrades(s, t, id);
    }
  }

  lemma BookIsSound(s: State)
    requires BookInv(s)
    ensures s.book.WellKept() && s.book.AllSound()
  {
  }

  lemma EmptyAverages()
    ensures Volume([]) == 0.0 && RunningAvg([]) == 0.0
  {
  }

  lemma SpawnKeepsInv(s: State, pc: Pc)
    requires Inv(s) && (Entry(pc) || pc.ReadLoggedOn?)
    ensures Inv(Spawn(s, pc))
  {
    hide BookState.WellKept, BookState.AllSound, NumberInv, Sum, ExecId;
    var n := Spawn(s, pc);
    assert n.threads[..|s.threads|] == s.threads;
    assert NumberInv(n) by { SameNumbers(s, n); }
    forall w: Weight ensures LogLaw(n, w) {
      assert LogLaw(s, w);
    }
    forall id ensures TradeInvOf(n, id) {
      assert TradeInvOf(s, id);
    }
  }

  lemma SameNumbers(s: State, n: State)
    requires NumberInv(s) && n.book.execSeq == s.book.execSeq && n.numbered == s.numbered
    ensures NumberInv(n)
  {
    hide ExecId;
  }

  lemma AfterKeepsInv(s: State, m: Move)
    requires Inv(s)
    ensures Inv(After(s, m))
  {
    hide BookState.WellKept, BookInv, NumberInv, LogInv, TradeInvOf, Run, Entry, Spawn;
    match m {
      case Enter(pc) =>
        if Entry(pc) {
          SpawnKeepsInv(s, pc);
        }
      case Step(t) =>
        if t < |s.threads| {
          RunKeepsBookInv(s, t);
          RunKeepsNumberInv(s, t);
          RunKeepsLogInv(s, t);
          forall id ensures TradeInvOf(Run(s, t), id) {
            assert TradeInvOf(s, id);
            RunKeepsTrades(s, t, id);
          }
        }
      case Logout(kind) =>
        var down := s.(loggedOn := s.loggedOn - {kind});
        FlagsKeepInv(s, down);
        SpawnKeepsInv(down, TimerOf(kind));
      case _ => FlagsKeepInv(s, After(s, m));
    }
  }

  /** Silence and the session flags are not in the invariant. */
  lemma FlagsKeepInv(s: State, n: State)
    requires Inv(s)
    requires n == s.(silenced := n.silenced, loggedOn := n.loggedOn, armed := n.armed)
    ensures Inv(n)
  {
    hide BookState.WellKept, BookState.AllSound, ExecId, Sum, Pending;
    forall w: Weight ensures LogLaw(n, w) {
      assert LogLaw(s, w);
    }
    forall id ensures TradeInvOf(n, id) {
      assert TradeInvOf(s, id);
    }
  }

  lemma EmptyInv()
    ensures Inv(EMPTY)
  {
    hide ExecId, OrderId;
    EmptyAverages();
  }

  /** The venue after any interleaving of any commands. */
  function Reached(ms: seq<Move>): State {
    if ms == [] then EMPTY else After(Reached(ms[..|ms| - 1]), ms[|ms| - 1])
  }

  lemma {:induction false} ReachedInv(ms: seq<Move>)
    ensures Inv(Reached(ms))
  {
    hide Inv, After;
    if ms == [] {
      EmptyInv();
    } else {
      ReachedInv(ms[..|ms| - 1]);
      AfterKeepsInv(Reached(ms[..|ms| - 1]), ms[|ms| - 1]);
    }
  }

  lemma ReachedBook(ms: seq<Move>)
    ensures BookInv(Reached(ms))
  {
    hide Reached, BookInv, LogInv, TradeInv, NumberInv;
    ReachedInv(ms);
  }

  lemma NothingReached()
    ensures Reached([]) == EMPTY
  {
  }

  lemma ReachedStep(ms: seq<Move>, k: nat)
    requires k < |ms|
    ensures Reached(ms[..k + 1]) == After(Reached(ms[..k]), ms[k])
  {
    hide After;
    assert ms[..k + 1][..k] == ms[..k];
  }

  lemma ReachedMore(ms: seq<Move>, m: Move)
    ensures Reached(ms + [m]) == After(Reached(ms), m)
  {
    hide After;
    assert (ms + [m])[..|ms|] == ms;
  }

  /** The state after more moves. */
  function Onward(s: State, more: seq<Move>): State
    decreases |more|
  {
    if more == [] then s else Onward(After(s, more[0]), more[1..])
  }

  lemma {:induction false} ReachedOnward(ms: seq<Move>, more: seq<Move>)
    ensures Reached(ms + more) == Onward(Reached(ms), more)
    decreases |more|
  {
    hide After, Reached;
    if more == [] {
      assert ms + more == ms;
    } else {
      ReachedMore(ms, more[0]);
      ReachedOnward(ms + [more[0]], more[1..]);
      assert ms + more == ms + [more[0]] + more[1..];
    }
  }

  lemma OnwardEnds(s: State, ms: seq<Move>)
    requires ms == []
    ensures Onward(s, ms) == s
  {
  }

  lemma OneOnward(s: State, m: Move)
    ensures Onward(s, [m]) == After(s, m)
  {
    hide After;
    assert [m][1..] == [];
  }

  lemma OnwardStep(s: State, ms: seq<Move>, k: nat)
    requires k < |ms|
    ensures Onward(s, ms[k..]) == Onward(After(s, ms[k]), ms[k + 1..])
  {
    hide After;
    assert ms[k..][1..] == ms[k + 1..];
  }

  lemma {:induction false} OnwardConcat(s: State, a: seq<Move>, b: seq<Move>)
    ensures Onward(s, a + b) == Onward(Onward(s, a), b)
    decreases |a|
  {
    hide After;
    if a == [] {
      assert a + b == b;
    } else {
      OnwardConcat(After(s, a[0]), a[1..], b);
      assert (a + b)[1..] == a[1..] + b;
    }
  }
}
