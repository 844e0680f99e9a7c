/** Cancel-on-disconnect over timed serialized runs: where a mass cancel comes from, what an outage
    does to the book, and what a session that flaps can lose. */
module CancelOnDisconnect {
  import opened Orders
  import opened Identifiers
  import opened Books
  import opened Messages
  import opened Venue
  import opened Runs
  import Reachable
  import MassCancel

  datatype Timed = Timed(at: int, command: Command)

  /** The clock never goes back, and the commands that read it read this one. */
  ghost predicate Clocked(ts: seq<Timed>) {
    && (forall i, j :: 0 <= i < j < |ts| ==> ts[i].at <= ts[j].at)
    && (forall i :: 0 <= i < |ts| ==> ReadsClock(ts[i]))
  }

  predicate ReadsClock(t: Timed) {
    match t.command
    case LoggedOut(_, at) => at == t.at
    case Expire(_, at) => at == t.at
    case _ => true
  }

  /** The venue before event `k`. */
  function At(kinds: set<Kind>, ts: seq<Timed>, k: nat): VenueState
    requires k <= |ts|
  {
    if k == 0 then Initial(kinds) else Step(At(kinds, ts, k - 1), ts[k - 1].command)
  }

  lemma {:induction false} AtInv(kinds: set<Kind>, ts: seq<Timed>, k: nat)
    requires k <= |ts|
    ensures Inv(At(kinds, ts, k))
  {
    hide Inv, Step;
    if k == 0 {
      Reachable.InitialInv(kinds);
    } else {
      AtInv(kinds, ts, k - 1);
      Reachable.StepKeepsInv(At(kinds, ts, k - 1), ts[k - 1].command);
    }
  }

  // ----- what one command does to the session state -----

  /** What the session handlers and the switches set, and no report or order touches. */
  predicate SameSession(v: VenueState, w: VenueState) {
    && w.loggedOn == v.loggedOn && w.cod == v.cod && w.timers == v.timers
    && w.silenced == v.silenced && w.rejectLogons == v.rejectLogons
  }

  lemma {:induction false} CancelFrame(v: VenueState, os: seq<OrderState>, reason: string)
    ensures SameSession(v, DoCancelEach(v, os, reason))
  {
    hide Describe, ExecId, Build, BookState.Update;
    if os != [] {
      CancelFrame(v, os[..|os| - 1], reason);
    }
  }

  lemma CancelAllFrame(v: VenueState, reason: string)
    ensures SameSession(v, DoCancelAll(v, reason))
  {
    CancelFrame(v, v.book.OpenDay(), reason);
  }

  function LoggedOnAfter(v: VenueState, c: Command): set<Kind> {
    match c
    case LoggedOn(k) => v.loggedOn + {k}
    case LoggedOut(k, _) => v.loggedOn - {k}
    case _ => v.loggedOn
  }

  /** A Logon the venue accepts. */
  predicate Accepts(v: VenueState, c: Command, kind: Kind, req: LogonRequest) {
    c == LogonRequested(kind, req, true) && v.rejectLogons == ""
  }

  /** The session's last accepted Logon asked for a type other than 0 (tag 35002). */
  predicate Armed(v: VenueState, kind: Kind, window: int) {
    kind in v.cod && v.cod[kind].codType != 0 && v.cod[kind].codWindow == window
  }

  function RequestsAfter(v: VenueState, c: Command): map<Kind, LogonRequest> {
    if c.LogonRequested? && Accepts(v, c, c.kind, c.request) then v.cod[c.kind := c.request] else v.cod
  }

  function TimersAfter(v: VenueState, c: Command): seq<Timer> {
    match c
    case LoggedOut(k, at) =>
      if k in v.cod && Armed(v, k, v.cod[k].codWindow) then v.timers + [Timer(k, at, v.cod[k].codWindow)] else v.timers
    case Expire(i, at) => if CanExpire(v, i, at) then v.timers[..i] + v.timers[i + 1..] else v.timers
    case _ => v.timers
  }

  /** Changes and orders leave the session state alone. */
  lemma ChangeFrame(v: VenueState, id: string, c: Change, reason: string)
    ensures SameSession(v, DoChange(v, id, c, reason).state)
  {
    hide Describe, ExecId, Build, Apply;
  }

  lemma NewOrderFrame(v: VenueState, f: OrderFields)
    ensures SameSession(v, DoNewOrder(v, f).state)
  {
    hide ExecId, Build, OrderId;
  }

  lemma ExpireFrame(v: VenueState, i: nat, at: int)
    ensures SameSession(v.(timers := TimersAfter(v, Expire(i, at))), DoExpire(v, i, at))
  {
    hide DoCancelAll, CodReason;
    if CanExpire(v, i, at) {
      CancelAllFrame(v.(timers := v.timers[..i] + v.timers[i + 1..]), CodReason(v.timers[i].kind));
    }
  }

  lemma SessionStep(v: VenueState, c: Command)
    ensures var w := Step(v, c);
      && w.loggedOn == LoggedOnAfter(v, c)
      && w.timers == TimersAfter(v, c)
      && w.cod == RequestsAfter(v, c)
      && w.silenced == (if c.SetSilenced? then c.on else v.silenced)
      && w.rejectLogons == (if c.SetRejectLogons? then c.text else v.rejectLogons)
  {
    hide DoExpire, DoCancelAll, DoChange, DoNewOrder, OrderState.LeavesQty, CodReason, Publish;
    match c {
      case Inbound(kind, body) =>
        if body.NewOrderSingle? {
          NewOrderFrame(v, body.order);
        }
      case Fill(id, px) =>
        if id in v.book.orders {
          ChangeFrame(v, id, Trade(v.book.orders[id].LeavesQty(), px), "");
        }
      case Partial(id, qty, px) => ChangeFrame(v, id, Trade(qty, px), "");
      case Cancel(id, reason) => ChangeFrame(v, id, Close(Canceled), reason);
      case Reject(id, reason) => ChangeFrame(v, id, Close(Rejected), reason);
      case CancelAll(reason) => CancelAllFrame(v, reason);
      case Expire(i, at) => ExpireFrame(v, i, at);
      case _ =>
    }
  }

  lemma AtStep(kinds: set<Kind>, ts: seq<Timed>, k: nat)
    requires k < |ts|
    ensures var v, w, c := At(kinds, ts, k), At(kinds, ts, k + 1), ts[k].command;
      && w == Step(v, c)
      && w.loggedOn == LoggedOnAfter(v, c)
      && w.timers == TimersAfter(v, c)
      && w.cod == RequestsAfter(v, c)
  {
    hide Step, LoggedOnAfter, TimersAfter, Accepts;
    SessionStep(At(kinds, ts, k), ts[k].command);
  }

  // ----- where a mass cancel comes from -----

  /** Event `j` is the logout that started timer `t`, the session being armed. */
  ghost predicate Started(kinds: set<Kind>, ts: seq<Timed>, j: nat, t: Timer)
    requires j < |ts|
  {
    ts[j].command == LoggedOut(t.kind, t.startedAt) && Armed(At(kinds, ts, j), t.kind, t.window)
  }

  lemma {:induction false} TimersHaveStarts(kinds: set<Kind>, ts: seq<Timed>, k: nat, t: Timer) returns (j: nat)
    requires k <= |ts| && t in At(kinds, ts, k).timers
    ensures j < k && Started(kinds, ts, j, t)
  {
    hide Step;
    if k > 0 {
      AtStep(kinds, ts, k - 1);
      hide At;
      if t in At(kinds, ts, k - 1).timers {
        j := TimersHaveStarts(kinds, ts, k - 1, t);
      } else {
        j := k - 1;
      }
    }
  }

  ghost predicate NoLogonAccepted(kinds: set<Kind>, ts: seq<Timed>, kind: Kind, i: nat, k: nat)
    requires k <= |ts|
  {
    forall m: nat, req :: i < m < k ==> !Accepts(At(kinds, ts, m), ts[m].command, kind, req)
  }

  /** Event `i` is the Logon that armed the session as it stands before event `k`, the last accepted. */
  ghost predicate ArmedBy(kinds: set<Kind>, ts: seq<Timed>, kind: Kind, i: nat, k: nat)
    requires i < k <= |ts|
  {
    && kind in At(kinds, ts, k).cod
    && Accepts(At(kinds, ts, i), ts[i].command, kind, At(kinds, ts, k).cod[kind])
    && NoLogonAccepted(kinds, ts, kind, i, k)
  }

  lemma {:induction false} ArmedByTheLastLogon(kinds: set<Kind>, ts: seq<Timed>, k: nat, kind: Kind) returns (i: nat)
    requires k <= |ts| && kind in At(kinds, ts, k).cod
    ensures i < k && ArmedBy(kinds, ts, kind, i, k)
  {
    hide Step;
    if k > 0 {
      AtStep(kinds, ts, k - 1);
      hide At;
      var v, c := At(kinds, ts, k - 1), ts[k - 1].command;
      if c.LogonRequested? && Accepts(v, c, kind, c.request) {
        i := k - 1;
      } else {
        i := ArmedByTheLastLogon(kinds, ts, k - 1, kind);
      }
    }
  }

  ghost predicate Down(kinds: set<Kind>, ts: seq<Timed>, kind: Kind, j: nat, e: nat)
    requires e <= |ts|
  {
    forall k: nat :: j < k <= e ==> kind !in At(kinds, ts, k).loggedOn
  }

  ghost predicate NoLogout(ts: seq<Timed>, kind: Kind, j: nat, e: nat)
    requires e <= |ts|
  {
    forall k: nat :: j < k < e ==> !(ts[k].command.LoggedOut? && ts[k].command.kind == kind)
  }

  ghost predicate NoReturn(ts: seq<Timed>, kind: Kind, j: nat, e: nat)
    requires e <= |ts|
  {
    forall k: nat :: j < k < e ==> ts[k].command != LoggedOn(kind)
  }

  /** A session stays up until it is logged out. */
  lemma {:induction false} StaysUp(kinds: set<Kind>, ts: seq<Timed>, kind: Kind, k: nat, e: nat)
    requires 0 < k <= e <= |ts| && kind in At(kinds, ts, k).loggedOn && NoLogout(ts, kind, k - 1, e)
    ensures kind in At(kinds, ts, e).loggedOn
    decreases e
  {
    hide Step;
    if k < e {
      AtStep(kinds, ts, e - 1);
      hide At;
      StaysUp(kinds, ts, kind, k, e - 1);
    }
  }

  /** A session stays down until it comes back. */
  lemma {:induction false} StaysDown(kinds: set<Kind>, ts: seq<Timed>, kind: Kind, j: nat, e: nat)
    requires j < e <= |ts| && ts[j].command.LoggedOut? && ts[j].command.kind == kind && NoReturn(ts, kind, j, e)
    ensures Down(kinds, ts, kind, j, e)
    decreases e
  {
    hide Step;
    AtStep(kinds, ts, e - 1);
    hide At;
    if j < e - 1 {
      StaysDown(kinds, ts, kind, j, e - 1);
    }
  }

  /** A session was down ever since a logout exactly when it never came back in between. */
  lemma DownExactlyWhen(kinds: set<Kind>, ts: seq<Timed>, kind: Kind, j: nat, e: nat)
    requires j < e <= |ts| && ts[j].command.LoggedOut? && ts[j].command.kind == kind
    ensures Down(kinds, ts, kind, j, e) <==> NoReturn(ts, kind, j, e)
  {
    hide Step, At;
    if NoReturn(ts, kind, j, e) {
      StaysDown(kinds, ts, kind, j, e);
    } else {
      var k: nat :| j < k < e && ts[k].command == LoggedOn(kind);
      AtStep(kinds, ts, k);
      assert kind in At(kinds, ts, k + 1).loggedOn;
    }
  }

  /** One found down, with no other logout since, was down all along. */
  lemma DownIfNoOtherLogout(kinds: set<Kind>, ts: seq<Timed>, kind: Kind, j: nat, e: nat)
    requires j < e <= |ts| && ts[j].command.LoggedOut? && ts[j].command.kind == kind
    requires kind !in At(kinds, ts, e).loggedOn && NoLogout(ts, kind, j, e)
    ensures Down(kinds, ts, kind, j, e)
  {
    hide Step, At, Down;
    if !NoReturn(ts, kind, j, e) {
      var k: nat :| j < k < e && ts[k].command == LoggedOn(kind);
      AtStep(kinds, ts, k);
      StaysUp(kinds, ts, kind, k + 1, e);
      assert false;
    }
    DownExactlyWhen(kinds, ts, kind, j, e);
  }

  /** Timer `t` fires at event `e`: event `j` is the armed logout that started it, one window ago or
      more, the session is down, and was down all along if it was not logged out again. */
  ghost predicate Explains(kinds: set<Kind>, ts: seq<Timed>, t: Timer, j: nat, e: nat)
    requires j < e < |ts|
  {
    && Started(kinds, ts, j, t)
    && ts[j].at + t.window <= ts[e].at
    && t.kind !in At(kinds, ts, e).loggedOn
    && (Down(kinds, ts, t.kind, j, e) <==> NoReturn(ts, t.kind, j, e))
    && (NoLogout(ts, t.kind, j, e) ==> Down(kinds, ts, t.kind, j, e))
  }

  /** Every mass cancel a timer makes comes from the logout that started that very timer, and the arming
      from the last Logon accepted before it. */
  lemma FiringHasACause(kinds: set<Kind>, ts: seq<Timed>, e: nat) returns (t: Timer, i: nat, j: nat)
    requires Clocked(ts) && e < |ts| && ts[e].command.Expire?
    requires At(kinds, ts, e + 1).book != At(kinds, ts, e).book
    ensures ts[e].command.timer < |At(kinds, ts, e).timers| && t == At(kinds, ts, e).timers[ts[e].command.timer]
    ensures i < j < e
    ensures ArmedBy(kinds, ts, t.kind, i, j) && Explains(kinds, ts, t, j, e)
  {
    hide At, DoCancelAll, Down, NoReturn, NoLogout, NoLogonAccepted;
    AtStep(kinds, ts, e);
    assert ReadsClock(ts[e]);
    t := At(kinds, ts, e).timers[ts[e].command.timer];
    hide Step;
    j := TimersHaveStarts(kinds, ts, e, t);
    assert ReadsClock(ts[j]);
    hide ArmedBy;
    i := ArmedByTheLastLogon(kinds, ts, j, t.kind);
    DownExactlyWhen(kinds, ts, t.kind, j, e);
    if NoLogout(ts, t.kind, j, e) {
      DownIfNoOtherLogout(kinds, ts, t.kind, j, e);
    }
  }

  // ----- what an outage does to the book -----

  ghost predicate NothingWorks(b: BookState) {
    forall id :: !b.IsOpenDay(id)
  }

  predicate Idle(b: BookState, id: string) {
    id in b.orders && !b.IsOpenDay(id)
  }

  lemma ChangeNeverRevives(v: VenueState, x: string, c: Change, reason: string, id: string)
    requires Idle(v.book, id)
    ensures Idle(DoChange(v, x, c, reason).state.book, id)
  {
    hide Describe, ExecId, Build, Averaged;
  }

  lemma {:induction false} CancelsNeverRevive(v: VenueState, os: seq<OrderState>, reason: string, id: string)
    requires Idle(v.book, id)
    ensures Idle(DoCancelEach(v, os, reason).book, id)
  {
    hide Idle, DoChange;
    if os != [] {
      CancelsNeverRevive(v, os[..|os| - 1], reason, id);
      ChangeNeverRevives(DoCancelEach(v, os[..|os| - 1], reason), os[|os| - 1].terms.clOrdID, ForceCancel, reason, id);
    }
  }

  lemma NewOrdersReviveNone(v: VenueState, f: OrderFields, id: string)
    requires Idle(v.book, id)
    ensures Idle(DoNewOrder(v, f).state.book, id)
  {
    hide ExecId, OrderId, Build, Incomplete, Received;
  }

  /** No command brings a finished order back to work. */
  lemma StepNeverRevives(v: VenueState, c: Command, id: string)
    requires Idle(v.book, id)
    ensures Idle(Step(v, c).book, id)
  {
    hide BookState.WellKept, DoChange, DoNewOrder, Idle, DoCancelEach;
    match c {
      case Inbound(kind, body) =>
        if body.NewOrderSingle? {
          NewOrdersReviveNone(v, body.order, id);
        }
      case Fill(x, px) =>
        if x in v.book.orders {
          ChangeNeverRevives(v, x, Trade(v.book.orders[x].LeavesQty(), px), "", id);
        }
      case Partial(x, qty, px) => ChangeNeverRevives(v, x, Trade(qty, px), "", id);
      case Cancel(x, reason) => ChangeNeverRevives(v, x, Close(Canceled), reason, id);
      case Reject(x, reason) => ChangeNeverRevives(v, x, Close(Rejected), reason, id);
      case CancelAll(reason) => CancelAllRevivesNone(v, reason, id);
      case Expire(i, at) =>
        if CanExpire(v, i, at) {
          CancelAllRevivesNone(v.(timers := v.timers[..i] + v.timers[i + 1..]), CodReason(v.timers[i].kind), id);
        }
      case _ =>
    }
  }

  lemma CancelAllRevivesNone(v: VenueState, reason: string, id: string)
    requires Idle(v.book, id)
    ensures Idle(DoCancelAll(v, reason).book, id)
  {
    hide Idle;
    CancelsNeverRevive(v, v.book.OpenDay(), reason, id);
  }

  lemma {:induction false} StaysIdle(kinds: set<Kind>, ts: seq<Timed>, f: nat, e: nat, id: string)
    requires f <= e <= |ts| && Idle(At(kinds, ts, f).book, id)
    ensures Idle(At(kinds, ts, e).book, id)
    decreases e
  {
    hide Step, Idle;
    if f < e {
      StaysIdle(kinds, ts, f, e - 1, id);
      AtStep(kinds, ts, e - 1);
      StepNeverRevives(At(kinds, ts, e - 1), ts[e - 1].command, id);
    }
  }

  /** A pending timer that is no longer pending has run. */
  lemma {:induction false} TimerHasRun(kinds: set<Kind>, ts: seq<Timed>, a: nat, e: nat, t: Timer) returns (f: nat)
    requires a <= e <= |ts| && t in At(kinds, ts, a).timers && t !in At(kinds, ts, e).timers
    ensures a <= f < e && ts[f].command.Expire?
    ensures var v, c := At(kinds, ts, f), ts[f].command;
      CanExpire(v, c.timer, c.at) && v.timers[c.timer] == t
    decreases e
  {
    hide Step, At;
    if t in At(kinds, ts, e - 1).timers {
      f := e - 1;
      AtStep(kinds, ts, f);
    } else {
      f := TimerHasRun(kinds, ts, a, e - 1, t);
    }
  }

  /** The mass cancel of event `f` strikes every order of the book before it. */
  ghost predicate Clears(kinds: set<Kind>, ts: seq<Timed>, f: nat)
    requires f < |ts|
  {
    var b, n := At(kinds, ts, f).book, At(kinds, ts, f + 1).book;
    && n.OpenDay() == []
    && n.orders.Keys == b.orders.Keys
    && (forall id :: id in b.orders ==> n.orders[id] == MassCancel.Struck(b.orders[id]))
  }

  lemma FiringClears(kinds: set<Kind>, ts: seq<Timed>, f: nat)
    requires f < |ts| && ts[f].command.Expire?
    requires var v, c := At(kinds, ts, f), ts[f].command;
      CanExpire(v, c.timer, c.at) && v.timers[c.timer].kind !in v.loggedOn
    ensures Clears(kinds, ts, f)
  {
    hide Inv, At, DoCancelAll, MassCancel.Cancelled, MassCancel.Struck, BookState.OpenDay;
    AtInv(kinds, ts, f);
    var v, i := At(kinds, ts, f), ts[f].command.timer;
    AtStep(kinds, ts, f);
    var fired := v.(timers := v.timers[..i] + v.timers[i + 1..]);
    Reachable.SameBookAndReports(v, fired);
    var reason := CodReason(v.timers[i].kind);
    MassCancel.CancelAllOpenDay(fired, reason);
    MassCancel.SecondCancelIsIdle(fired, reason, reason);
  }

  /** An unbroken outage of one window: once the timer that an armed logout started has run, with the
      session never back, the mass cancel was made, no earlier than the deadline. */
  lemma OutageClearsTheBook(kinds: set<Kind>, ts: seq<Timed>, t: Timer, j: nat, e: nat) returns (f: nat)
    requires Clocked(ts) && j < e <= |ts| && Started(kinds, ts, j, t) && NoReturn(ts, t.kind, j, e)
    requires t !in At(kinds, ts, e).timers
    ensures j < f < e && ts[j].at + t.window <= ts[f].at && Clears(kinds, ts, f)
  {
    hide Step, At, Clears;
    AtStep(kinds, ts, j);
    assert ReadsClock(ts[j]);
    f := TimerHasRun(kinds, ts, j + 1, e, t);
    assert ReadsClock(ts[f]);
    StaysDown(kinds, ts, t.kind, j, e);
    FiringClears(kinds, ts, f);
  }

  /** What a mass cancel cleared stays cleared: a day order that works later came in later. */
  lemma ClearedForGood(kinds: set<Kind>, ts: seq<Timed>, f: nat, e: nat, id: string)
    requires f < e <= |ts| && Clears(kinds, ts, f)
    ensures At(kinds, ts, e).book.IsOpenDay(id) ==> id !in At(kinds, ts, f).book.orders
  {
    hide Step, At, Clears;
    if id in At(kinds, ts, f).book.orders {
      ClearedIsIdle(kinds, ts, f, id);
      StaysIdle(kinds, ts, f + 1, e, id);
    }
  }

  lemma ClearedIsIdle(kinds: set<Kind>, ts: seq<Timed>, f: nat, id: string)
    requires f < |ts| && Clears(kinds, ts, f) && id in At(kinds, ts, f).book.orders
    ensures Idle(At(kinds, ts, f + 1).book, id)
  {
    hide Step, At;
  }

  /** A session that is back and stays back loses nothing to its own timers. (Another session's timer can
      still take every order: `DropCopyLossTakesOrders`.) */
  lemma ReconnectStandsDown(kinds: set<Kind>, ts: seq<Timed>, kind: Kind, m: nat, e: nat)
    requires m < e < |ts| && ts[m].command == LoggedOn(kind) && NoLogout(ts, kind, m, e)
    requires var v, c := At(kinds, ts, e), ts[e].command;
      c.Expire? && CanExpire(v, c.timer, c.at) && v.timers[c.timer].kind == kind
    ensures var v := At(kinds, ts, e);
      At(kinds, ts, e + 1) == v.(timers := TimersAfter(v, ts[e].command))
  {
    hide At;
    AtStep(kinds, ts, m);
    AtStep(kinds, ts, e);
    StaysUp(kinds, ts, kind, m + 1, e);
  }

  /** A due timer leaves every order alone exactly when its session is back or nothing is working,
      whichever session it is. The documentation exempts drop copy, which owns no orders; the code
      does not ask who owns them. */
  lemma FiringSparesOrdersExactlyWhen(kinds: set<Kind>, ts: seq<Timed>, e: nat)
    requires e < |ts| && ts[e].command.Expire?
    requires CanExpire(At(kinds, ts, e), ts[e].command.timer, ts[e].command.at)
    ensures var v := At(kinds, ts, e);
      (At(kinds, ts, e + 1).book.orders == v.book.orders)
      <==> (v.timers[ts[e].command.timer].kind in v.loggedOn || NothingWorks(v.book))
  {
    hide At, DoCancelAll, BookState.OpenDay;
    var v, w := At(kinds, ts, e), At(kinds, ts, e + 1);
    AtStep(kinds, ts, e);
    if v.timers[ts[e].command.timer].kind !in v.loggedOn {
      FiringClears(kinds, ts, e);
      hide Step;
      if id :| v.book.IsOpenDay(id) {
        assert w.book.orders[id] == MassCancel.Struck(v.book.orders[id]);
      } else {
        assert forall id :: id in v.book.orders ==> !v.book.IsOpenDay(id) && w.book.orders[id] == v.book.orders[id];
      }
    }
  }

  // ----- when an order outlives the timers -----

  /** The command can change the order, timers aside. */
  predicate Concerns(c: Command, id: string) {
    match c
    case Fill(x, _) => x == id
    case Partial(x, _, _) => x == id
    case Cancel(x, _) => x == id
    case Reject(x, _) => x == id
    case CancelAll(_) => true
    case _ => false
  }

  /** If event `k` is a due timer, its session is up. */
  ghost predicate Spared(kinds: set<Kind>, ts: seq<Timed>, k: nat)
    requires k < |ts|
  {
    var v, c := At(kinds, ts, k), ts[k].command;
    c.Expire? && CanExpire(v, c.timer, c.at) ==> v.timers[c.timer].kind in v.loggedOn
  }

  predicate SameOrder(b: BookState, n: BookState, id: string) {
    id in b.orders && id in n.orders && n.orders[id] == b.orders[id]
  }

  lemma ChangeSparesOthers(v: VenueState, x: string, c: Change, reason: string, id: string)
    requires id in v.book.orders && x != id
    ensures SameOrder(v.book, DoChange(v, x, c, reason).state.book, id)
  {
    hide Describe, ExecId, Build, Apply;
  }

  lemma NewOrderSparesOthers(v: VenueState, f: OrderFields, id: string)
    requires id in v.book.orders
    ensures SameOrder(v.book, DoNewOrder(v, f).state.book, id)
  {
    hide ExecId, OrderId, Build, Incomplete, Received;
  }

  lemma StepSparesOthers(v: VenueState, c: Command, id: string)
    requires id in v.book.orders && !Concerns(c, id) && !c.Expire?
    ensures SameOrder(v.book, Step(v, c).book, id)
  {
    hide DoChange, DoNewOrder, DoCancelAll, OrderState.LeavesQty;
    match c {
      case Inbound(kind, body) =>
        if body.NewOrderSingle? {
          NewOrderSparesOthers(v, body.order, id);
        }
      case Fill(x, px) =>
        if x in v.book.orders {
          ChangeSparesOthers(v, x, Trade(v.book.orders[x].LeavesQty(), px), "", id);
        }
      case Partial(x, qty, px) => ChangeSparesOthers(v, x, Trade(qty, px), "", id);
      case Cancel(x, reason) => ChangeSparesOthers(v, x, Close(Canceled), reason, id);
      case Reject(x, reason) => ChangeSparesOthers(v, x, Close(Rejected), reason, id);
      case _ =>
    }
  }

  lemma SparingTimerDoesNothing(v: VenueState, i: nat, at: int)
    requires CanExpire(v, i, at) ==> v.timers[i].kind in v.loggedOn
    ensures Step(v, Expire(i, at)).book == v.book
  {
  }

  /** An event that concerns a working day order by a timer alone: it works on exactly when the timer, if
      due, finds its session up. */
  lemma WorksThroughExactlyWhen(kinds: set<Kind>, ts: seq<Timed>, id: string, k: nat)
    requires k < |ts| && At(kinds, ts, k).book.IsOpenDay(id) && !Concerns(ts[k].command, id)
    ensures id in At(kinds, ts, k + 1).book.orders
    ensures At(kinds, ts, k + 1).book.IsOpenDay(id) <==> Spared(kinds, ts, k)
  {
    hide At, Step, Clears;
    var v, c := At(kinds, ts, k), ts[k].command;
    AtStep(kinds, ts, k);
    if !c.Expire? {
      StepSparesOthers(v, c, id);
    } else if Spared(kinds, ts, k) {
      SparingTimerDoesNothing(v, c.timer, c.at);
    } else {
      FiringClears(kinds, ts, k);
      ClearedIsIdle(kinds, ts, k, id);
    }
  }

  ghost predicate LeftToTimers(ts: seq<Timed>, id: string, m: nat, e: nat)
    requires e <= |ts|
  {
    forall k: nat :: m <= k < e ==> !Concerns(ts[k].command, id)
  }

  /** Over any stretch of a run in which nothing but timers concerns a working day order, it keeps working
      exactly when every due timer finds its own session up, whichever session that is. */
  lemma {:induction false} WorksOnExactlyWhen(kinds: set<Kind>, ts: seq<Timed>, id: string, m: nat, e: nat)
    requires m <= e <= |ts| && At(kinds, ts, m).book.IsOpenDay(id) && LeftToTimers(ts, id, m, e)
    ensures id in At(kinds, ts, e).book.orders
    ensures At(kinds, ts, e).book.IsOpenDay(id) <==> forall k: nat :: m <= k < e ==> Spared(kinds, ts, k)
    decreases e
  {
    hide At, Spared, Concerns;
    if m < e {
      var k := e - 1;
      WorksOnExactlyWhen(kinds, ts, id, m, k);
      if At(kinds, ts, k).book.IsOpenDay(id) {
        WorksThroughExactlyWhen(kinds, ts, id, k);
      } else {
        hide Step;
        AtStep(kinds, ts, k);
        StepNeverRevives(At(kinds, ts, k), ts[k].command, id);
      }
    }
  }

  /** The timer of event `k`, if due, is this session's own. */
  predicate OwnTimer(v: VenueState, c: Command, kind: Kind) {
    c.Expire? && CanExpire(v, c.timer, c.at) ==> v.timers[c.timer].kind == kind
  }

  /** What reconnecting promises: after a session is back, and while it stays, an order that is otherwise
      left alone keeps working exactly when no timer of another session finds that session down. */
  lemma ReturnKeepsOrderExactlyWhen(kinds: set<Kind>, ts: seq<Timed>, kind: Kind, id: string, m: nat, e: nat)
    requires m < e <= |ts| && ts[m].command == LoggedOn(kind) && NoLogout(ts, kind, m, e)
    requires At(kinds, ts, m).book.IsOpenDay(id) && LeftToTimers(ts, id, m, e)
    ensures At(kinds, ts, e).book.IsOpenDay(id)
       <==> forall k: nat :: m <= k < e ==> OwnTimer(At(kinds, ts, k), ts[k].command, kind) || Spared(kinds, ts, k)
  {
    hide At;
    WorksOnExactlyWhen(kinds, ts, id, m, e);
    AtStep(kinds, ts, m);
    hide Step;
    forall k: nat | m <= k < e && OwnTimer(At(kinds, ts, k), ts[k].command, kind) ensures Spared(kinds, ts, k) {
      if k > m {
        StaysUp(kinds, ts, kind, m + 1, k);
      }
    }
  }

  // ----- a session that flaps -----

  /** Armed, one order sent, dropped, back, dropped again `late`; the first drop's timer still runs. */
  function Flapping(f: OrderFields, window: int, late: int): seq<Timed> {
    [Timed(0, LogonRequested(OrderEntry, LogonRequest(1, window), true)),
     Timed(0, LoggedOn(OrderEntry)),
     Timed(0, Inbound(OrderEntry, NewOrderSingle(f))),
     Timed(0, LoggedOut(OrderEntry, 0)),
     Timed(late, LoggedOn(OrderEntry)),
     Timed(late, LoggedOut(OrderEntry, late)),
     Timed(window, Expire(0, window))]
  }

  /** The grace window is not always granted: timers are never cancelled, so an order can go less than
      one window after the latest drop, as little as no time at all. */
  lemma FlappingLosesOrders(kinds: set<Kind>, f: OrderFields, window: int, late: int)
    requires 0 < late <= window
    requires Incomplete(f).None? && Received(f).IsDay()
    ensures var ts := Flapping(f, window, late);
      && Clocked(ts)
      && At(kinds, ts, 6).book.IsOpenDay(f.clOrdID.value)
      && Idle(At(kinds, ts, 7).book, f.clOrdID.value)
      && ts[5].command == LoggedOut(OrderEntry, late) && ts[6].at - ts[5].at < window
  {
    hide At, DoCancelAll, DoChange, DoNewOrder, CodReason;
    var ts := Flapping(f, window, late);
    FlapSetsUp(kinds, f, window, late);
    AtStep(kinds, ts, 5);
    AtStep(kinds, ts, 4);
    AtStep(kinds, ts, 3);
    FiringClears(kinds, ts, 6);
    ClearedIsIdle(kinds, ts, 6, f.clOrdID.value);
  }

  lemma FlapSetsUp(kinds: set<Kind>, f: OrderFields, window: int, late: int)
    requires Incomplete(f).None? && Received(f).IsDay()
    ensures var v := At(kinds, Flapping(f, window, late), 3);
      && v.book.IsOpenDay(f.clOrdID.value)
      && v.cod == map[OrderEntry := LogonRequest(1, window)] && v.timers == [] && v.rejectLogons == ""
  {
    hide ExecId, OrderId, Build;
    var ts := Flapping(f, window, late);
    AtStep(kinds, ts, 0);
    AtStep(kinds, ts, 1);
    AtStep(kinds, ts, 2);
  }

  /** A drop copy that armed itself is lost while the order-entry session stays up. */
  function DropCopyLost(f: OrderFields, window: int): seq<Timed> {
    [Timed(0, LogonRequested(DropCopy, LogonRequest(1, window), true)),
     Timed(0, LoggedOn(DropCopy)),
     Timed(0, LoggedOn(OrderEntry)),
     Timed(0, Inbound(OrderEntry, NewOrderSingle(f))),
     Timed(0, LoggedOut(DropCopy, 0)),
     Timed(window, Expire(0, window))]
  }

  /** It takes the orders of the session that is up. */
  lemma DropCopyLossTakesOrders(kinds: set<Kind>, f: OrderFields, window: int)
    requires 0 <= window && Incomplete(f).None? && Received(f).IsDay()
    ensures var ts := DropCopyLost(f, window);
      && Clocked(ts)
      && OrderEntry in At(kinds, ts, 5).loggedOn && OrderEntry in At(kinds, ts, 6).loggedOn
      && At(kinds, ts, 5).book.IsOpenDay(f.clOrdID.value)
      && Idle(At(kinds, ts, 6).book, f.clOrdID.value)
  {
    hide At, DoNewOrder, DoCancelAll, DoChange, CodReason;
    var ts := DropCopyLost(f, window);
    DropCopySetsUp(kinds, f, window);
    AtStep(kinds, ts, 4);
    AtStep(kinds, ts, 5);
    FiringClears(kinds, ts, 5);
    ClearedIsIdle(kinds, ts, 5, f.clOrdID.value);
  }

  lemma DropCopySetsUp(kinds: set<Kind>, f: OrderFields, window: int)
    requires Incomplete(f).None? && Received(f).IsDay()
    ensures var v := At(kinds, DropCopyLost(f, window), 4);
      && v.book.IsOpenDay(f.clOrdID.value)
      && v.cod == map[DropCopy := LogonRequest(1, window)] && v.timers == [] && v.loggedOn == {OrderEntry, DropCopy}
  {
    hide ExecId, OrderId, Build;
    var ts := DropCopyLost(f, window);
    AtStep(kinds, ts, 0);
    AtStep(kinds, ts, 1);
    AtStep(kinds, ts, 2);
    AtStep(kinds, ts, 3);
  }
}
