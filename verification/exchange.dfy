/** The venue application: the class the source keeps, proved against the functions of module Venue. */
module Exchange {
  import opened Orders
  import opened Identifiers
  import opened Books
  import opened Messages
  import opened Venue

  class App {
    const book: Book
    var silenced: bool
    var rejectLogons: string
    var logs: map<Kind, seq<Slot>>
    var loggedOn: set<Kind>
    var cod: map<Kind, LogonRequest>
    var timers: seq<Timer>
    ghost var issued: seq<Issued>

    ghost predicate Valid()
      reads this, book, book.repr
    {
      book.Valid()
    }

    ghost function State(): VenueState
      reads this, book
    {
      VenueState(book.state, silenced, rejectLogons, logs, loggedOn, cod, timers, issued)
    }

    constructor (kinds: set<Kind>)
      ensures Valid() && State() == Initial(kinds) && fresh(book) && fresh(book.repr)
    {
      book := new Book();
      silenced, rejectLogons := false, "";
      logs, loggedOn, cod, timers := map k | k in kinds :: [], {}, map[], [];
      issued := [];
    }

    method Publish(r: Report)
      requires Valid()
      modifies this`logs, this`issued, book`execSeq, book`state
      ensures Valid() && State() == Venue.Publish(old(State()), r)
    {
      hide ExecId, Build, Book.Valid;
      var isSilenced := silenced;
      var execID := book.NextExecID();
      var numbered := r.(execID := execID);
      issued := issued + [Issued(numbered, isSilenced)];
      if isSilenced {
        return;
      }
      ghost var target := Fanout(logs, Sent(Build(numbered)));
      if OrderEntry in logs {
        Send(numbered, OrderEntry);
      }
      if DropCopy in logs {
        Send(numbered, DropCopy);
      }
      forall k | k in logs ensures k in target && logs[k] == target[k] {
        match k
        case OrderEntry =>
        case DropCopy =>
      }
      assert logs == target;
    }

    /** Each session numbers and stores its own message. */
    method Send(r: Report, kind: Kind)
      requires kind in logs
      modifies this`logs
      ensures logs == old(logs)[kind := old(logs[kind]) + [Sent(Build(r))]]
    {
      logs := logs[kind := logs[kind] + [Sent(Build(r))]];
    }

    method Change(id: string, c: Orders.Change, reason: string) returns (err: Option<Error>)
      requires Valid()
      modifies this`logs, this`issued, book`execSeq, book`state, book.repr
      ensures Valid()
      ensures Outcome(State(), err) == DoChange(old(State()), id, c, reason)
    {
      hide Apply, Describe, Venue.Publish, Book.Valid;
      var updated := book.Update(id, c);
      if updated.Err? {
        return Some(updated.error);
      }
      Publish(Describe(c, updated.value, reason));
      err := None;
    }

    method Partial(id: string, qty: real, px: real) returns (err: Option<Error>)
      requires Valid()
      modifies this`logs, this`issued, book`execSeq, book`state, book.repr
      ensures Valid()
      ensures Outcome(State(), err) == DoPartial(old(State()), id, qty, px)
    {
      hide DoChange, Book.Valid;
      if qty <= 0.0 {
        return Some(QtyNotPositive);
      }
      err := Change(id, Trade(qty, px), "");
    }

    /** A fill is a partial of whatever the order had left when it was read. */
    method Fill(id: string, px: real) returns (err: Option<Error>)
      requires Valid()
      modifies this`logs, this`issued, book`execSeq, book`state, book.repr
      ensures Valid()
      ensures Outcome(State(), err) == DoFill(old(State()), id, px)
    {
      hide DoPartial, Book.Valid;
      var o := book.Get(id);
      if o.None? {
        return Some(UnknownClOrdID);
      }
      err := Partial(id, o.value.LeavesQty(), px);
    }

    method Cancel(id: string, reason: string) returns (err: Option<Error>)
      requires Valid()
      modifies this`logs, this`issued, book`execSeq, book`state, book.repr
      ensures Valid()
      ensures Outcome(State(), err) == DoClose(old(State()), id, Canceled, reason)
    {
      hide DoChange, Book.Valid;
      err := Change(id, Close(Canceled), reason);
    }

    method Reject(id: string, reason: string) returns (err: Option<Error>)
      requires Valid()
      modifies this`logs, this`issued, book`execSeq, book`state, book.repr
      ensures Valid()
      ensures Outcome(State(), err) == DoClose(old(State()), id, Rejected, reason)
    {
      hide DoChange, Book.Valid;
      err := Change(id, Close(Rejected), reason);
    }

    /** Takes a snapshot, then cancels and reports each order of it. */
    method CancelAllOpenDay(reason: string) returns (count: nat)
      requires Valid()
      modifies this`logs, this`issued, book`execSeq, book`state, book.repr
      ensures Valid() && State() == DoCancelAll(old(State()), reason)
      ensures count == |old(State()).book.OpenDay()|
    {
      hide DoChange, Book.Valid;
      var orders := book.OpenDayOrders();
      ghost var before := State();
      for i := 0 to |orders|
        invariant Valid() && book.repr == old(book.repr)
        invariant State() == DoCancelEach(before, orders[..i], reason)
      {
        assert orders[..i + 1][..i] == orders[..i];
        var err := Change(orders[i].terms.clOrdID, ForceCancel, reason);
      }
      assert orders[..|orders|] == orders;
      count := |orders|;
    }

    method SetSilenced(on: bool)
      requires Valid()
      modifies this`silenced
      ensures Valid() && State() == old(State()).(silenced := on)
    {
      silenced := on;
    }

    method SetRejectLogons(reason: string)
      requires Valid()
      modifies this`rejectLogons
      ensures Valid() && State() == old(State()).(rejectLogons := reason)
    {
      rejectLogons := reason;
    }

    /** Returns the next sequence number; the session's log holds every number before it. */
    method AdvanceSeqNum(kind: Kind, n: int, stored: bool) returns (next: nat, err: Option<Error>)
      requires Valid()
      modifies this`logs
      ensures Valid() && Outcome(State(), err) == DoAdvance(old(State()), kind, n, stored)
      ensures if err.Some? then next == 0 else kind in logs && next == |logs[kind]| + 1 == |old(logs)[kind]| + 1 + n
    {
      hide Book.Valid;
      if n <= 0 {
        return 0, Some(CountNotPositive);
      }
      if kind !in logs {
        return 0, Some(NoSession);
      }
      if !stored {
        return 0, Some(StoreFailed);
      }
      var current := |logs[kind]| + 1;
      logs := logs[kind := logs[kind] + Holes(n)];
      next, err := current + n, None;
    }

    method OnNewOrderSingle(f: OrderFields) returns (rejection: Option<Rejection>)
      requires Valid()
      modifies this`logs, this`issued, book, book.repr
      ensures Valid() && fresh(book.repr - old(book.repr))
      ensures Reply(State(), rejection) == DoNewOrder(old(State()), f)
    {
      hide Venue.Publish, Book.Valid, BookState.Insert;
      if f.clOrdID.None? {
        return Some(MissingTag(11));
      }
      if f.symbol.None? {
        return Some(MissingTag(55));
      }
      if f.side.None? {
        return Some(MissingTag(54));
      }
      if f.orderQty.None? {
        return Some(MissingTag(38));
      }
      if f.ordType.None? {
        return Some(MissingTag(40));
      }
      var o := new Order(Received(f));
      var err := book.Insert(o);
      if err.Some? {
        return Some(Refused(err.value));
      }
      Publish(NewAck(o.Snapshot()));
      rejection := None;
    }

    method FromApp(kind: Kind, body: Body) returns (rejection: Option<Rejection>)
      requires Valid()
      modifies this`logs, this`issued, book, book.repr
      ensures Valid() && fresh(book.repr - old(book.repr))
      ensures Reply(State(), rejection) == DoFromApp(old(State()), kind, body)
    {
      hide DoNewOrder, Book.Valid;
      if kind == DropCopy {
        return Some(ReadOnlySession);
      }
      match body
      case NewOrderSingle(f) => rejection := OnNewOrderSingle(f);
      case BusinessReject => rejection := None;
      case SessionReject => rejection := None;
      case NoMsgType => rejection := Some(MissingTag(35));
      case ExecutionReport(_) => rejection := Some(Unsupported);
      case OtherType => rejection := Some(Unsupported);
    }

    method OnLogon(kind: Kind)
      requires Valid()
      modifies this`loggedOn
      ensures Valid() && State() == old(State()).(loggedOn := old(loggedOn) + {kind})
    {
      loggedOn := loggedOn + {kind};
    }

    /** Starts the cancel-on-disconnect window of an armed session. */
    method OnLogout(kind: Kind, now: int)
      requires Valid()
      modifies this`loggedOn, this`timers
      ensures Valid() && State() == DoLogout(old(State()), kind, now)
    {
      hide Book.Valid;
      loggedOn := loggedOn - {kind};
      if kind in cod && cod[kind].codType != COD_DISABLED {
        OnSessionLost(kind, cod[kind], now);
      }
    }

    method OnSessionLost(kind: Kind, req: LogonRequest, now: int)
      modifies this`timers
      ensures timers == old(timers) + [Timer(kind, now, req.codWindow)]
    {
      timers := timers + [Timer(kind, now, req.codWindow)];
    }

    /** An inbound Logon; `passwordOk` is the credential check. Returns whether it was refused. */
    method FromAdminLogon(kind: Kind, req: LogonRequest, passwordOk: bool) returns (refused: bool)
      requires Valid()
      modifies this`cod
      ensures Valid() && State() == DoLogonRequest(old(State()), kind, req, passwordOk)
      ensures refused <==> old(rejectLogons) != "" || !passwordOk
    {
      hide Book.Valid;
      if rejectLogons != "" {
        return true;
      }
      if !passwordOk {
        return true;
      }
      cod := cod[kind := req];
      refused := false;
    }

    /** Timer `i` runs its callback. */
    method TimerExpired(i: nat, now: int)
      requires Valid() && CanExpire(State(), i, now)
      modifies this`timers, this`logs, this`issued, book`execSeq, book`state, book.repr
      ensures Valid() && State() == DoExpire(old(State()), i, now)
    {
      hide Book.Valid, DoCancelAll;
      var t := timers[i];
      timers := timers[..i] + timers[i + 1..];
      if t.kind in loggedOn {
        return;
      }
      var count := CancelAllOpenDay(CodReason(t.kind));
    }
  }
}
