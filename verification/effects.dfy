/** What one step of a thread does to the orders, and to the report it has in hand. */
module Effects {
  import opened Orders
  import opened Identifiers
  import opened Books
  import opened Messages
  import opened Interleaving

  // ----- an order never comes back to an earlier state -----

  function Phase(s: Status): nat {
    match s
    case New => 0
    case PartiallyFilled => 0
    case Filled => 1
    case Rejected => 1
    case Canceled => 2
  }

  /** `a` is an earlier state than `b` of the same order. */
  predicate Before(a: OrderState, b: OrderState) {
    && a.terms == b.terms && a.orderID == b.orderID
    && a.status != Canceled
    && (a.cumQty < b.cumQty || (a.cumQty == b.cumQty && Phase(a.status) < Phase(b.status)))
  }

  predicate UpTo(a: OrderState, b: OrderState) {
    a == b || Before(a, b)
  }

  /** Every change moves an order forward, or, when it cancels a canceled order, not at all. */
  lemma ChangesMoveForward(c: Change, o: OrderState)
    requires Commanded(c) && Apply(c, o).Ok?
    ensures UpTo(o, Apply(c, o).value) && Apply(c, o).value.terms == o.terms
  {
    hide Averaged;
  }

  predicate Has(b: BookState, id: string, o: OrderState) {
    id in b.orders && b.orders[id] == o
  }

  /** The step of thread `t` changes order `id`. */
  predicate Changes(s: State, t: nat, id: string) {
    t < |s.threads| && id in s.book.orders && !Has(Run(s, t).book, id, s.book.orders[id])
  }

  // ----- what one step does to the orders -----

  /** What a locked update does when it succeeds. */
  lemma LockedUpdates(s: State, t: nat, x: string, c: Change, reason: string, k: Next)
    requires BookInv(s) && t < |s.threads| && Commanded(c) && s.book.Update(x, c).Ok?
    ensures var n := Locked(s, t, x, c, reason, k);
      && x in s.book.orders && x in n.book.orders
      && UpTo(s.book.orders[x], n.book.orders[x])
      && n.book.orders == s.book.orders[x := n.book.orders[x]]
      && n.threads == s.threads[t := ReadSilenced(Describe(c, n.book.orders[x], reason), k)]
      && n.oe == s.oe && n.dc == s.dc && n.dropped == s.dropped
      && Describe(c, n.book.orders[x], reason).order == n.book.orders[x]
      && n.book.orders[x].terms.clOrdID == x
      && (c.ForceCancel? ==> n.book.orders[x].status == Canceled)
  {
    hide PcSound, BookState.AllSound, OrderId, Averaged;
    ChangesMoveForward(c, s.book.orders[x]);
    hide Apply;
  }

  lemma LockedRefuses(s: State, t: nat, x: string, c: Change, reason: string, k: Next)
    requires t < |s.threads| && s.book.Update(x, c).Err?
    ensures Locked(s, t, x, c, reason, k) == Goto(s, t, if k.Finish? then Done(false) else AfterReport(k))
  {
    hide BookState.Update;
  }

  /** The locked update a thread is about to make. */
  datatype Locking = Locking(id: string, change: Change, reason: string, next: Next)

  function LockingOf(pc: Pc): Option<Locking> {
    match pc
    case TradeUpdate(id, qty, px, _) => if qty > 0.0 then Some(Locking(id, Trade(qty, px), "", Finish)) else None
    case CloseUpdate(id, to, reason) => Some(Locking(id, Close(to), reason, Finish))
    case CancelUpdate(todo, reason) =>
      if todo == [] then None else Some(Locking(todo[0], ForceCancel, reason, Resume(todo[1..], reason)))
    case _ => None
  }

  lemma RunIsLocked(s: State, t: nat)
    requires BookInv(s) && t < |s.threads| && LockingOf(s.threads[t]).Some?
    ensures var l := LockingOf(s.threads[t]).value;
      Run(s, t) == Locked(s, t, l.id, l.change, l.reason, l.next) && Commanded(l.change)
  {
    hide BookState.WellKept, BookState.AllSound, Locked;
    ThreadSound(s, t);
  }

  /** The three kinds of step: a successful update, an accepted order, and the rest. */
  predicate Updates(s: State, t: nat) {
    && t < |s.threads| && LockingOf(s.threads[t]).Some?
    && s.book.Update(LockingOf(s.threads[t]).value.id, LockingOf(s.threads[t]).value.change).Ok?
  }

  /** The order a successful update leaves behind is the one its thread goes on to report. */
  lemma UpdateEffect(s: State, t: nat)
    requires BookInv(s) && Updates(s, t)
    ensures var n, l := Run(s, t), LockingOf(s.threads[t]).value; var pc := n.threads[t];
      && MovesOnly(s, n, t)
      && l.id in s.book.orders && l.id in n.book.orders
      && UpTo(s.book.orders[l.id], n.book.orders[l.id])
      && n.book.orders == s.book.orders[l.id := n.book.orders[l.id]]
      && pc.ReadSilenced? && pc.r.order == n.book.orders[l.id] && pc.next == l.next
      && n.oe == s.oe && n.dc == s.dc && n.dropped == s.dropped
      && n.book.orders[l.id].terms.clOrdID == l.id
      && (l.change.ForceCancel? ==> n.book.orders[l.id].status == Canceled)
  {
    var l := LockingOf(s.threads[t]).value;
    RunIsLocked(s, t);
    LockedUpdates(s, t, l.id, l.change, l.reason, l.next);
    RunMovesOnly(s, t);
    hide BookInv, Run, Locked, Describe, BookState.Update, UpTo, LockingOf;
  }

  predicate Accepts(s: State, t: nat) {
    t < |s.threads| && s.threads[t].OrderInsert? && s.threads[t].order.terms.clOrdID !in s.book.orders
  }

  // ----- reports in hand -----

  predicate About(r: Report, id: string) {
    r.order.terms.clOrdID == id
  }

  function InHand(pc: Pc): Option<Report> {
    match pc
    case ReadSilenced(r, _) => Some(r)
    case TakeExecID(r, _, _) => Some(r)
    case SendOe(r, _) => Some(r)
    case SendDc(r, _) => Some(r)
    case _ => None
  }

  function NextOf(pc: Pc): Next
    requires InHand(pc).Some?
  {
    match pc
    case ReadSilenced(_, k) => k
    case TakeExecID(_, _, k) => k
    case SendOe(_, k) => k
    case SendDc(_, k) => k
  }

  /** The thread holds a report about the order that it has yet to send to the session, and will. */
  predicate Unsent(pc: Pc, kind: Kind, id: string) {
    match pc
    case ReadSilenced(r, _) => About(r, id)
    case TakeExecID(r, silenced, _) => !silenced && About(r, id)
    case SendOe(r, _) => About(r, id)
    case SendDc(r, _) => kind == DropCopy && About(r, id)
    case _ => false
  }

  function Log(s: State, kind: Kind): seq<Report> {
    if kind == OrderEntry then s.oe else s.dc
  }

  /** A log grows by its own send alone, and only the first send leads to the second. */
  lemma LogsGrow(s: State, t: nat)
    requires t < |s.threads|
    ensures var n, pc := Run(s, t), s.threads[t];
      && MovesOnly(s, n, t)
      && n.oe == (if pc.SendOe? then s.oe + [pc.r] else s.oe)
      && n.dc == (if pc.SendDc? then s.dc + [pc.r] else s.dc)
      && (if pc.SendOe? then n.threads[t] == SendDc(pc.r, pc.next) else !n.threads[t].SendDc?)
  {
    RunMovesOnly(s, t);
    var pc := s.threads[t];
    if pc.TakeExecID? || pc.SendOe? || pc.SendDc? {
      hide ExecId;
    } else {
      var one := (r: Report) => 1.0;
      StepLeavesLogs(s, t, one);
      hide Run;
      assert Held(Run(s, t).threads[t], UnsentDc, one) == 0.0;
    }
  }

  predicate Sends(s: State, n: State, kind: Kind, r: Report) {
    Log(n, kind) == Log(s, kind) + [r]
  }

  /** The step hands the report in hand on: to its next station, to the log, or to silence. */
  ghost predicate Handed(s: State, n: State, t: nat, kind: Kind, id: string)
    requires t < |s.threads| && t < |n.threads|
  {
    var old', new' := s.threads[t], n.threads[t];
    && (InHand(new').Some? && InHand(old').Some? ==> InHand(new').value.order == InHand(old').value.order)
    && (InHand(new').Some? && InHand(old').None? ==>
          old'.AckRead? && old'.id in s.book.orders && new' == ReadSilenced(NewAck(s.book.orders[old'.id]), Finish))
    && (old'.AckRead? && old'.id in s.book.orders ==> InHand(new').Some?)
    && (Unsent(new', kind, id) && InHand(old').Some? ==> Unsent(old', kind, id))
    && (Unsent(old', kind, id) ==>
          || Unsent(new', kind, id) || (s.silenced && Doomed(new', id)) || Sends(s, n, kind, InHand(old').value))
    && (Log(n, kind) == Log(s, kind)
        || (InHand(old').Some? && Sends(s, n, kind, InHand(old').value)
            && Unsent(old', kind, InHand(old').value.order.terms.clOrdID)))
    && s.dropped <= n.dropped
    && (Doomed(old', id) ==> n.dropped != [] && About(n.dropped[|n.dropped| - 1], id))
  }

  /** The thread found the venue silenced and will drop its report. */
  predicate Doomed(pc: Pc, id: string) {
    pc.TakeExecID? && pc.silenced && About(pc.r, id)
  }

  lemma CarrierHandsOn(s: State, t: nat, kind: Kind, id: string)
    requires t < |s.threads| && InHand(s.threads[t]).Some?
    ensures Run(s, t).book.orders == s.book.orders
    ensures MovesOnly(s, Run(s, t), t) && Handed(s, Run(s, t), t, kind, id)
  {
    RunMovesOnly(s, t);
    hide ExecId;
  }

  lemma EmptyHandsStayEmpty(s: State, pc: Pc, t: nat, kind: Kind, id: string)
    requires t < |s.threads| && InHand(s.threads[t]).None? && InHand(pc).None? && !s.threads[t].AckRead?
    ensures MovesOnly(s, Goto(s, t, pc), t) && Handed(s, Goto(s, t, pc), t, kind, id)
  {
  }

  /** A step that neither updates nor accepts an order leaves all orders alone and hands on what is in
      hand; only an acknowledgement's read takes a new report in hand. */
  lemma HandsOn(s: State, t: nat, kind: Kind, id: string)
    requires t < |s.threads| && !Updates(s, t) && !Accepts(s, t)
    ensures Run(s, t).book.orders == s.book.orders
    ensures MovesOnly(s, Run(s, t), t) && Handed(s, Run(s, t), t, kind, id)
  {
    hide BookState.OpenDay, SnapshotIds, OrderState.LeavesQty, ExecId, Handed, MovesOnly, Locked, Apply;
    match s.threads[t] {
      case TradeUpdate(x, qty, px, _) =>
        if qty > 0.0 {
          LockedRefuses(s, t, x, Trade(qty, px), "", Finish);
        }
        EmptyHandsStayEmpty(s, Done(false), t, kind, id);
      case CloseUpdate(x, to, reason) =>
        LockedRefuses(s, t, x, Close(to), reason, Finish);
        EmptyHandsStayEmpty(s, Done(false), t, kind, id);
      case CancelUpdate(todo, reason) =>
        if todo != [] {
          LockedRefuses(s, t, todo[0], ForceCancel, reason, Resume(todo[1..], reason));
          EmptyHandsStayEmpty(s, CancelUpdate(todo[1..], reason), t, kind, id);
        } else {
          EmptyHandsStayEmpty(s, Done(true), t, kind, id);
        }
      case AckRead(x) => AckHandsOn(s, t, kind, id);
      case Done(_) => EmptyHandsStayEmpty(s, s.threads[t], t, kind, id); assert s.threads[t := s.threads[t]] == s.threads;
      case FillGet(x, px) => EmptyHandsStayEmpty(s, Run(s, t).threads[t], t, kind, id);
      case OrderInsert(o) => EmptyHandsStayEmpty(s, Done(false), t, kind, id);
      case ReadLoggedOn(_, _) => EmptyHandsStayEmpty(s, Run(s, t).threads[t], t, kind, id);
      case TakeSnapshot(reason) => EmptyHandsStayEmpty(s, Run(s, t).threads[t], t, kind, id);
      case _ => CarrierHandsOn(s, t, kind, id);
    }
  }

  lemma AckHandsOn(s: State, t: nat, kind: Kind, id: string)
    requires t < |s.threads| && s.threads[t].AckRead?
    ensures Run(s, t).book.orders == s.book.orders
    ensures MovesOnly(s, Run(s, t), t) && Handed(s, Run(s, t), t, kind, id)
  {
    RunMovesOnly(s, t);
  }

  /** An accepted order is new to the book and its thread goes on to acknowledge it. */
  lemma AcceptTakesIn(s: State, t: nat)
    requires BookInv(s) && Accepts(s, t)
    ensures var n, x := Run(s, t), s.threads[t].order.terms.clOrdID;
      && x in n.book.orders && n.book.orders == s.book.orders[x := n.book.orders[x]]
      && n.threads == s.threads[t := AckRead(x)]
      && n.oe == s.oe && n.dc == s.dc && n.dropped == s.dropped
  {
    hide OrderId, BookState.WellKept, BookState.AllSound;
  }

  /** No step takes an order back, or away. */
  lemma StepMovesForward(s: State, t: nat, id: string)
    requires BookInv(s) && t < |s.threads| && id in s.book.orders
    ensures id in Run(s, t).book.orders && UpTo(s.book.orders[id], Run(s, t).book.orders[id])
  {
    hide BookInv, Before, Run, Locked;
    if Updates(s, t) {
      UpdateEffect(s, t);
    } else if Accepts(s, t) {
      AcceptTakesIn(s, t);
    } else {
      HandsOn(s, t, OrderEntry, id);
    }
  }

  /** What is not a step can only bring a thread, with nothing in hand. */
  lemma OtherMoves(s: State, m: Move)
    requires !m.Step? || m.thread >= |s.threads|
    ensures var n := After(s, m);
      && n.book == s.book && n.oe == s.oe && n.dc == s.dc && n.dropped == s.dropped
      && |s.threads| <= |n.threads| && n.threads[..|s.threads|] == s.threads
      && forall u :: |s.threads| <= u < |n.threads| ==> InHand(n.threads[u]).None? && !n.threads[u].AckRead?
  {
    hide Run;
  }
}
