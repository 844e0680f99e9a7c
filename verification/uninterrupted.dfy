/** The two layers of the venue are one: a command whose thread is not interrupted does, lock section by
    lock section, what the serialized layer has it do; and every serialized run is such an interleaving. */
module Uninterrupted {
  import opened Orders
  import opened Identifiers
  import opened Books
  import opened Messages
  import opened Interleaving
  import opened Effects
  import opened Draining
  import Venue
  import Runs
  import Reachable
  import CancelOnDisconnect

  // ----- the same venue in both layers -----

  function Built(rs: seq<Report>): seq<ExecReport> {
    seq(|rs|, i requires 0 <= i < |rs| => Build(rs[i]))
  }

  function ReportsOf(issued: seq<Venue.Issued>): seq<Report> {
    seq(|issued|, i requires 0 <= i < |issued| => issued[i].report)
  }

  function DroppedOf(issued: seq<Venue.Issued>): seq<Report> {
    if issued == [] then [] else
      var last := issued[|issued| - 1];
      DroppedOf(issued[..|issued| - 1]) + if last.dropped then [last.report] else []
  }

  /** Book, flags, reports, drops and logs, skipped numbers aside, are the same. */
  ghost predicate Shows(v: Venue.VenueState, s: State) {
    && v.book == s.book && v.silenced == s.silenced && v.loggedOn == s.loggedOn
    && (forall k :: k in s.armed <==> k in v.cod && v.cod[k].codType != Venue.COD_DISABLED)
    && v.logs.Keys == {OrderEntry, DropCopy}
    && Runs.Sents(v.logs[OrderEntry]) == Built(s.oe) && Runs.Sents(v.logs[DropCopy]) == Built(s.dc)
    && ReportsOf(v.issued) == s.numbered && DroppedOf(v.issued) == s.dropped
  }

  // ----- a thread seen to its end -----

  function Ended(s: State, t: nat): State
    requires t < |s.threads|
    decreases Fuel(s.book, s.threads[t])
  {
    if s.threads[t].Done? then s else
      StepBurnsFuel(s, t);
      RunMovesOnly(s, t);
      Ended(Run(s, t), t)
  }

  lemma EndedStep(s: State, t: nat)
    requires t < |s.threads| && !s.threads[t].Done?
    ensures t < |Run(s, t).threads| && Ended(s, t) == Ended(Run(s, t), t)
  {
    hide Run;
    RunMovesOnly(s, t);
  }

  lemma EndedIsDone(s: State, t: nat)
    requires t < |s.threads| && s.threads[t].Done?
    ensures Ended(s, t) == s
  {
  }

  /** Whatever number of steps a thread makes alone, once it is done it is at that end. */
  lemma {:induction false} AloneEnds(s: State, more: seq<Move>, t: nat)
    requires t < |s.threads| && Alone(more, t)
    ensures var w := Onward(s, more); |w.threads| == |s.threads| && (w.threads[t].Done? ==> w == Ended(s, t))
    decreases |more|
  {
    hide Run, Ended;
    if more == [] {
      if s.threads[t].Done? {
        EndedIsDone(s, t);
      }
    } else {
      assert more[0] in more;
      assert Alone(more[1..], t) by {
        forall m | m in more[1..] ensures m == Step(t) {
          assert m in more;
        }
      }
      RunMovesOnly(s, t);
      AloneEnds(Run(s, t), more[1..], t);
      if s.threads[t].Done? {
        DoneStays(s, t);
      } else {
        EndedStep(s, t);
      }
    }
  }

  lemma DoneStays(s: State, t: nat)
    requires t < |s.threads| && s.threads[t].Done?
    ensures Run(s, t) == s
  {
  }

  // ----- one report -----

  /** The report is numbered and sent on both sessions, or dropped, and the thread goes on. */
  function Published(s: State, t: nat, r: Report, k: Next): State
    requires t < |s.threads|
  {
    var n := r.(execID := ExecId(s.book.execSeq + 1));
    var taken := Goto(s, t, AfterReport(k))
      .(book := s.book.(execSeq := s.book.execSeq + 1), numbered := s.numbered + [n]);
    if s.silenced then taken.(dropped := s.dropped + [n]) else taken.(oe := s.oe + [n], dc := s.dc + [n])
  }

  lemma SendsAlone(s: State, t: nat)
    requires t < |s.threads| && s.threads[t].SendOe?
    ensures var r, k := s.threads[t].r, s.threads[t].next;
      Ended(s, t) == Ended(Goto(s, t, AfterReport(k)).(oe := s.oe + [r], dc := s.dc + [r]), t)
  {
    hide Ended;
    var r, k := s.threads[t].r, s.threads[t].next;
    EndedStep(s, t);
    var n := Goto(s, t, SendDc(r, k)).(oe := s.oe + [r]);
    assert Run(s, t) == n;
    EndedStep(n, t);
    assert n.threads[t := AfterReport(k)] == s.threads[t := AfterReport(k)];
  }

  lemma ReportsAlone(s: State, t: nat)
    requires t < |s.threads| && s.threads[t].ReadSilenced?
    ensures Ended(s, t) == Ended(Published(s, t, s.threads[t].r, s.threads[t].next), t)
  {
    hide Ended, ExecId;
    var r, k := s.threads[t].r, s.threads[t].next;
    EndedStep(s, t);
    var n := Goto(s, t, TakeExecID(r, s.silenced, k));
    assert Run(s, t) == n;
    EndedStep(n, t);
    assert n.threads[t := AfterReport(k)] == s.threads[t := AfterReport(k)];
    if !s.silenced {
      var w := Run(n, t);
      SendsAlone(w, t);
      assert w.threads[t := AfterReport(k)] == s.threads[t := AfterReport(k)];
    }
  }

  lemma ShowsPublished(v: Venue.VenueState, s: State, t: nat, r: Report, k: Next)
    requires Shows(v, s) && t < |s.threads|
    ensures Shows(Venue.Publish(v, r), Published(s, t, r, k))
  {
    hide ExecId, Build, Built, ReportsOf, DroppedOf, Runs.Sents;
    var n := r.(execID := ExecId(v.book.execSeq + 1));
    IssuedAppend(v.issued, Venue.Issued(n, v.silenced));
    BuiltAppend(s.oe, n);
    BuiltAppend(s.dc, n);
    SentsAppend(v.logs[OrderEntry], Build(n));
    SentsAppend(v.logs[DropCopy], Build(n));
  }

  lemma IssuedAppend(issued: seq<Venue.Issued>, i: Venue.Issued)
    ensures ReportsOf(issued + [i]) == ReportsOf(issued) + [i.report]
    ensures DroppedOf(issued + [i]) == if i.dropped then DroppedOf(issued) + [i.report] else DroppedOf(issued)
  {
    assert (issued + [i])[..|issued|] == issued;
  }

  lemma BuiltAppend(rs: seq<Report>, r: Report)
    ensures Built(rs + [r]) == Built(rs) + [Build(r)]
  {
    hide Build;
  }

  lemma SentsAppend(log: seq<Venue.Slot>, er: ExecReport)
    ensures Runs.Sents(log + [Venue.Sent(er)]) == Runs.Sents(log) + [er]
  {
    assert (log + [Venue.Sent(er)])[..|log|] == log;
  }

  /** Where a thread stands is not part of what the venue shows. */
  lemma ShowsGone(v: Venue.VenueState, s: State, t: nat, pc: Pc)
    requires Shows(v, s) && t < |s.threads|
    ensures Shows(v, Goto(s, t, pc))
  {
  }

  // ----- one locked change -----

  /** The thread makes its locked change and reports it, or is refused; then it goes on. */
  lemma ChangesAlone(v: Venue.VenueState, s: State, t: nat) returns (n: State)
    requires Shows(v, s) && t < |s.threads| && LockingOf(s.threads[t]).Some?
    ensures var l := LockingOf(s.threads[t]).value;
      var out := Venue.DoChange(v, l.id, l.change, l.reason);
      && Shows(out.state, n)
      && n.threads == s.threads[t := if out.error.None? || l.next.Resume? then AfterReport(l.next) else Done(false)]
      && Ended(s, t) == Ended(n, t)
  {
    hide Ended, Run, Shows, Describe, ExecId, Build;
    var l := LockingOf(s.threads[t]).value;
    EndedStep(s, t);
    RunLocks(s, t);
    assert v.book == s.book by { SameBook(v, s); }
    match s.book.Update(l.id, l.change) {
      case Err(_) =>
        n := Run(s, t);
        LockedRefuses(s, t, l.id, l.change, l.reason, l.next);
        ShowsGone(v, s, t, n.threads[t]);
      case Ok(b) =>
        var r := Describe(l.change, b.orders[l.id], l.reason);
        var w := Run(s, t);
        ReportsAlone(w, t);
        ShowsBook(v, s, w, b);
        ShowsPublished(v.(book := b), w, t, r, l.next);
        n := Published(w, t, r, l.next);
    }
  }

  lemma SameBook(v: Venue.VenueState, s: State)
    requires Shows(v, s)
    ensures v.book == s.book
  {
  }

  lemma RunLocks(s: State, t: nat)
    requires t < |s.threads| && LockingOf(s.threads[t]).Some?
    ensures !s.threads[t].Done?
    ensures var l := LockingOf(s.threads[t]).value; Run(s, t) == Locked(s, t, l.id, l.change, l.reason, l.next)
  {
    hide Locked;
  }

  lemma ShowsBook(v: Venue.VenueState, s: State, w: State, b: BookState)
    requires Shows(v, s) && w == s.(book := b, threads := w.threads, fills := w.fills)
    ensures Shows(v.(book := b), w)
  {
  }

  // ----- the mass cancel -----

  /** The mass cancel in the order of its snapshot. */
  function CancelIds(v: Venue.VenueState, ids: seq<string>, reason: string): Venue.VenueState
    decreases |ids|
  {
    if ids == [] then v else CancelIds(Venue.DoChange(v, ids[0], ForceCancel, reason).state, ids[1..], reason)
  }

  lemma {:induction false} CancelIdsAppend(v: Venue.VenueState, ids: seq<string>, x: string, reason: string)
    ensures CancelIds(v, ids + [x], reason) == Venue.DoChange(CancelIds(v, ids, reason), x, ForceCancel, reason).state
    decreases |ids|
  {
    hide Venue.DoChange;
    if ids == [] {
      assert ([x])[1..] == [];
    } else {
      CancelIdsAppend(Venue.DoChange(v, ids[0], ForceCancel, reason).state, ids[1..], x, reason);
      assert (ids + [x])[1..] == ids[1..] + [x];
    }
  }

  lemma {:induction false} CancelEachById(v: Venue.VenueState, os: seq<OrderState>, reason: string)
    ensures Venue.DoCancelEach(v, os, reason) == CancelIds(v, SnapshotIds(os), reason)
  {
    hide Venue.DoChange;
    if os != [] {
      var n := |os| - 1;
      CancelEachById(v, os[..n], reason);
      CancelIdsAppend(v, SnapshotIds(os[..n]), os[n].terms.clOrdID, reason);
      assert SnapshotIds(os) == SnapshotIds(os[..n]) + [os[n].terms.clOrdID];
    }
  }

  lemma {:induction false} CancelsAlone(v: Venue.VenueState, s: State, t: nat)
    requires Shows(v, s) && t < |s.threads| && s.threads[t].CancelUpdate?
    ensures var pc, n := s.threads[t], Ended(s, t);
      Shows(CancelIds(v, pc.todo, pc.reason), n) && n.threads == s.threads[t := Done(true)]
    decreases |s.threads[t].todo|
  {
    hide Ended, Shows, Venue.DoChange;
    var todo, reason := s.threads[t].todo, s.threads[t].reason;
    if todo == [] {
      EndedStep(s, t);
      NothingToCancel(s, t);
      ShowsGone(v, s, t, Done(true));
      EndedIsDone(Goto(s, t, Done(true)), t);
    } else {
      hide Run;
      var n := ChangesAlone(v, s, t);
      CancelsAlone(Venue.DoChange(v, todo[0], ForceCancel, reason).state, n, t);
    }
  }

  lemma NothingToCancel(s: State, t: nat)
    requires t < |s.threads| && s.threads[t].CancelUpdate? && s.threads[t].todo == []
    ensures Run(s, t) == Goto(s, t, Done(true))
  {
  }

  lemma SnapshotAlone(v: Venue.VenueState, s: State, t: nat)
    requires Shows(v, s) && t < |s.threads| && s.threads[t].TakeSnapshot?
    ensures var n := Ended(s, t);
      Shows(Venue.DoCancelAll(v, s.threads[t].reason), n) && n.threads == s.threads[t := Done(true)]
  {
    hide Ended, CancelIds, Venue.DoCancelEach, BookState.OpenDay;
    var os, reason := s.book.OpenDay(), s.threads[t].reason;
    var n := Goto(s, t, CancelUpdate(SnapshotIds(os), reason));
    EndedStep(s, t);
    assert Run(s, t) == n;
    ShowsGone(v, s, t, n.threads[t]);
    CancelsAlone(v, n, t);
    CancelEachById(v, os, reason);
    assert n.threads[t := Done(true)] == s.threads[t := Done(true)];
  }

  // ----- every command -----

  /** What a command's thread starts as. */
  function StartOf(c: Venue.Command): Option<Pc> {
    match c
    case Inbound(OrderEntry, NewOrderSingle(f)) =>
      if Venue.Incomplete(f).None? then Some(OrderInsert(Venue.Received(f))) else None
    case Fill(id, px) => Some(FillGet(id, px))
    case Partial(id, qty, px) => Some(TradeUpdate(id, qty, px, false))
    case Cancel(id, reason) => Some(CloseUpdate(id, Canceled, reason))
    case Reject(id, reason) => Some(CloseUpdate(id, Rejected, reason))
    case CancelAll(reason) => Some(TakeSnapshot(reason))
    case _ => None
  }

  /** A thread that stands at `pc` is about to carry out the command. */
  predicate CarriesOut(v: Venue.VenueState, c: Venue.Command, pc: Pc) {
    || StartOf(c) == Some(pc)
    || (c.Expire? && Venue.CanExpire(v, c.timer, c.at) && pc == TimerOf(v.timers[c.timer].kind))
  }

  /** What the command answers. */
  function Succeeds(v: Venue.VenueState, c: Venue.Command): bool {
    match c
    case Inbound(kind, body) => Venue.DoFromApp(v, kind, body).rejection.None?
    case Fill(id, px) => Venue.DoFill(v, id, px).error.None?
    case Partial(id, qty, px) => Venue.DoPartial(v, id, qty, px).error.None?
    case Cancel(id, reason) => Venue.DoClose(v, id, Canceled, reason).error.None?
    case Reject(id, reason) => Venue.DoClose(v, id, Rejected, reason).error.None?
    case _ => true
  }

  /** The thread is done, with this answer, and the venue shows this. */
  ghost predicate EndsShowing(s: State, t: nat, w: Venue.VenueState, ok: bool)
    requires t < |s.threads|
  {
    Shows(w, Ended(s, t)) && Ended(s, t).threads == s.threads[t := Done(ok)]
  }

  lemma EndsAtOnce(v: Venue.VenueState, s: State, t: nat, ok: bool)
    requires Shows(v, s) && t < |s.threads| && !s.threads[t].Done? && Run(s, t) == Goto(s, t, Done(ok))
    ensures EndsShowing(s, t, v, ok)
  {
    hide Ended, Shows, Run;
    EndedStep(s, t);
    ShowsGone(v, s, t, Done(ok));
    EndedIsDone(Goto(s, t, Done(ok)), t);
  }

  lemma ChangeAlone(v: Venue.VenueState, s: State, t: nat)
    requires Shows(v, s) && t < |s.threads| && LockingOf(s.threads[t]).Some? && LockingOf(s.threads[t]).value.next.Finish?
    ensures var l := LockingOf(s.threads[t]).value;
      var out := Venue.DoChange(v, l.id, l.change, l.reason);
      EndsShowing(s, t, out.state, out.error.None?)
  {
    hide Ended, Shows, Venue.DoChange;
    var n := ChangesAlone(v, s, t);
    EndedIsDone(n, t);
  }

  lemma PartialAlone(v: Venue.VenueState, s: State, t: nat)
    requires Shows(v, s) && t < |s.threads| && s.threads[t].TradeUpdate?
    ensures var pc := s.threads[t]; var out := Venue.DoPartial(v, pc.id, pc.qty, pc.px);
      EndsShowing(s, t, out.state, out.error.None?)
  {
    hide EndsShowing, Shows, Venue.DoChange, Locked;
    if s.threads[t].qty <= 0.0 {
      EndsAtOnce(v, s, t, false);
    } else {
      ChangeAlone(v, s, t);
    }
  }

  lemma FillAlone(v: Venue.VenueState, s: State, t: nat)
    requires Shows(v, s) && t < |s.threads| && s.threads[t].FillGet?
    ensures var pc := s.threads[t]; var out := Venue.DoFill(v, pc.id, pc.px);
      EndsShowing(s, t, out.state, out.error.None?)
  {
    hide Ended, Shows, Venue.DoPartial, OrderState.LeavesQty;
    SameBook(v, s);
    var pc := s.threads[t];
    if pc.id !in s.book.orders {
      EndsAtOnce(v, s, t, false);
    } else {
      var n := Goto(s, t, TradeUpdate(pc.id, s.book.orders[pc.id].LeavesQty(), pc.px, true));
      EndedStep(s, t);
      ShowsGone(v, s, t, n.threads[t]);
      PartialAlone(v, n, t);
      forall ok ensures n.threads[t := Done(ok)] == s.threads[t := Done(ok)] {
      }
    }
  }

  lemma NewOrderAlone(v: Venue.VenueState, s: State, t: nat, f: OrderFields)
    requires Shows(v, s) && t < |s.threads|
    requires Venue.Incomplete(f).None? && s.threads[t] == OrderInsert(Venue.Received(f))
    ensures var out := Venue.DoNewOrder(v, f); EndsShowing(s, t, out.state, out.rejection.None?)
  {
    hide Ended, Shows, OrderId, ExecId, Venue.Publish, NewAck;
    SameBook(v, s);
    var o := Venue.Received(f);
    match s.book.Insert(o) {
      case Err(_) => EndsAtOnce(v, s, t, false);
      case Ok(b) =>
        var id := o.terms.clOrdID;
        var w := Goto(s, t, AckRead(id)).(book := b);
        EndedStep(s, t);
        assert Run(s, t) == w;
        ShowsBook(v, s, w, b);
        AcknowledgesAlone(v.(book := b), w, t);
        assert w.threads[t := Done(true)] == s.threads[t := Done(true)];
    }
  }

  lemma AcknowledgesAlone(v: Venue.VenueState, s: State, t: nat)
    requires Shows(v, s) && t < |s.threads| && s.threads[t].AckRead? && s.threads[t].id in s.book.orders
    ensures EndsShowing(s, t, Venue.Publish(v, NewAck(s.book.orders[s.threads[t].id])), true)
  {
    hide Ended, Shows, ExecId, Venue.Publish, NewAck;
    var r := NewAck(s.book.orders[s.threads[t].id]);
    var n := Goto(s, t, ReadSilenced(r, Interleaving.Finish));
    EndedStep(s, t);
    assert Run(s, t) == n;
    hide Run;
    ShowsGone(v, s, t, n.threads[t]);
    ReportsAlone(n, t);
    ShowsPublished(v, n, t, r, Interleaving.Finish);
    EndedIsDone(Published(n, t, r, Interleaving.Finish), t);
    assert n.threads[t := Done(true)] == s.threads[t := Done(true)];
  }

  lemma TimerAlone(v: Venue.VenueState, s: State, t: nat, kind: Kind)
    requires Shows(v, s) && t < |s.threads| && s.threads[t] == TimerOf(kind)
    ensures EndsShowing(s, t, if kind in v.loggedOn then v else Venue.DoCancelAll(v, Venue.CodReason(kind)), true)
  {
    hide Ended, Venue.DoCancelAll;
    if kind in s.loggedOn {
      EndsAtOnce(v, s, t, true);
    } else {
      var n := Goto(s, t, TakeSnapshot(Venue.CodReason(kind)));
      EndedStep(s, t);
      assert Run(s, t) == n;
      ShowsGone(v, s, t, n.threads[t]);
      SnapshotAlone(v, n, t);
      assert n.threads[t := Done(true)] == s.threads[t := Done(true)];
    }
  }

  /** Timers are threads; which are pending is not part of what the venue shows. */
  lemma ShowsTimers(v: Venue.VenueState, s: State, timers: seq<Venue.Timer>)
    requires Shows(v, s)
    ensures Shows(v.(timers := timers), s)
  {
  }

  /** A thread that carries out a command without interruption does to the book, the numbered and dropped
      reports and the logs what the serialized layer says, and ends with the same answer. */
  lemma CommandAlone(v: Venue.VenueState, s: State, c: Venue.Command, t: nat)
    requires Shows(v, s) && t < |s.threads| && CarriesOut(v, c, s.threads[t])
    ensures EndsShowing(s, t, Venue.Step(v, c), Succeeds(v, c))
  {
    hide EndsShowing, Shows, Venue.DoNewOrder, Venue.DoFill, Venue.DoPartial, Venue.DoChange, Venue.DoCancelAll,
      Venue.Incomplete, Venue.Received, Venue.CodReason;
    match c {
      case Inbound(OrderEntry, NewOrderSingle(f)) => NewOrderAlone(v, s, t, f);
      case Fill(id, px) => FillAlone(v, s, t);
      case Partial(id, qty, px) => PartialAlone(v, s, t);
      case Cancel(id, reason) => ChangeAlone(v, s, t);
      case Reject(id, reason) => ChangeAlone(v, s, t);
      case CancelAll(reason) => SnapshotShows(v, s, t);
      case Expire(i, at) =>
        var fired := v.(timers := v.timers[..i] + v.timers[i + 1..]);
        ShowsTimers(v, s, fired.timers);
        TimerAlone(fired, s, t, v.timers[i].kind);
      case _ =>
    }
  }

  lemma SnapshotShows(v: Venue.VenueState, s: State, t: nat)
    requires Shows(v, s) && t < |s.threads| && s.threads[t].TakeSnapshot?
    ensures EndsShowing(s, t, Venue.DoCancelAll(v, s.threads[t].reason), true)
  {
    hide Ended, Shows, Venue.DoCancelAll;
    SnapshotAlone(v, s, t);
  }

  // ----- every serialized run is an interleaving -----

  /** The pending timers are threads that wait, one each; every other thread is done. */
  ghost predicate Waiting(v: Venue.VenueState, s: State, at: seq<nat>) {
    && |at| == |v.timers|
    && (forall i :: 0 <= i < |at| ==> at[i] < |s.threads| && s.threads[at[i]] == TimerOf(v.timers[i].kind))
    && (forall i, j :: 0 <= i < j < |at| ==> at[i] != at[j])
    && (forall u :: 0 <= u < |s.threads| && u !in at ==> s.threads[u].Done?)
  }

  /** A thread is seen to its end. */
  lemma SeenThrough(s: State, t: nat) returns (more: seq<Move>)
    requires t < |s.threads|
    ensures Onward(s, more) == Ended(s, t)
  {
    more := ThreadEnds(s, t);
    AloneEnds(s, more, t);
  }

  /** A command comes in and is seen through. */
  lemma EnteredAndSeenThrough(v: Venue.VenueState, s: State, c: Venue.Command, at: seq<nat>) returns (more: seq<Move>)
    requires Shows(v, s) && Waiting(v, s, at) && StartOf(c).Some?
    ensures Shows(Venue.Step(v, c), Onward(s, more)) && Waiting(Venue.Step(v, c), Onward(s, more), at)
  {
    hide Ended, Shows, Venue.Step, Onward;
    var t, pc := |s.threads|, StartOf(c).value;
    var n := Spawn(s, pc);
    assert Shows(v, n) by { ShowsSpawned(v, s, pc); }
    StartIsEntry(c);
    var rest := SeenThrough(n, t);
    CommandAlone(v, n, c, t);
    more := [Enter(pc)] + rest;
    OnwardConcat(s, [Enter(pc)], rest);
    OneOnward(s, Enter(pc));
    CancelOnDisconnect.SessionStep(v, c);
    hide StartOf;
    assert n.threads[t := Done(Succeeds(v, c))] == s.threads + [Done(Succeeds(v, c))];
    StartLeavesTimers(v, c);
  }

  lemma StartLeavesTimers(v: Venue.VenueState, c: Venue.Command)
    requires StartOf(c).Some?
    ensures CancelOnDisconnect.TimersAfter(v, c) == v.timers
  {
  }

  lemma StartIsEntry(c: Venue.Command)
    requires StartOf(c).Some?
    ensures Entry(StartOf(c).value)
  {
  }

  lemma ShowsSpawned(v: Venue.VenueState, s: State, pc: Pc)
    requires Shows(v, s)
    ensures Shows(v, Spawn(s, pc))
  {
  }

  /** A due timer runs its callback. */
  lemma TimerSeenThrough(v: Venue.VenueState, s: State, c: Venue.Command, at: seq<nat>)
    returns (more: seq<Move>, left: seq<nat>)
    requires Shows(v, s) && Waiting(v, s, at) && c.Expire? && Venue.CanExpire(v, c.timer, c.at)
    ensures Shows(Venue.Step(v, c), Onward(s, more)) && Waiting(Venue.Step(v, c), Onward(s, more), left)
  {
    hide Ended, Shows, Venue.Step, Onward;
    var i := c.timer;
    var t := at[i];
    more := SeenThrough(s, t);
    CommandAlone(v, s, c, t);
    CancelOnDisconnect.SessionStep(v, c);
    left := at[..i] + at[i + 1..];
    StillWaiting(v, s, at, i, Venue.Step(v, c), Onward(s, more));
  }

  lemma Without(at: seq<nat>, i: nat)
    requires i < |at| && forall j, k :: 0 <= j < k < |at| ==> at[j] != at[k]
    ensures var left := at[..i] + at[i + 1..];
      && |left| == |at| - 1 && (forall k :: 0 <= k < |left| ==> left[k] == at[if k < i then k else k + 1])
      && at[i] !in left && forall u :: u in at && u != at[i] ==> u in left
  {
    var left := at[..i] + at[i + 1..];
    forall u | u in at && u != at[i] ensures u in left {
      var k :| 0 <= k < |at| && at[k] == u;
      assert left[if k < i then k else k - 1] == u;
    }
  }

  lemma StillWaiting(v: Venue.VenueState, s: State, at: seq<nat>, i: nat, w: Venue.VenueState, n: State)
    requires Waiting(v, s, at) && i < |at|
    requires w.timers == v.timers[..i] + v.timers[i + 1..]
    requires |n.threads| == |s.threads| && n.threads[at[i]].Done?
    requires forall u :: 0 <= u < |s.threads| && u != at[i] ==> n.threads[u] == s.threads[u]
    ensures Waiting(w, n, at[..i] + at[i + 1..])
  {
    hide TimerOf;
    Without(at, i);
    var left := at[..i] + at[i + 1..];
    forall k | 0 <= k < |left| ensures n.threads[left[k]] == TimerOf(w.timers[k].kind) {
      assert left[k] == at[if k < i then k else k + 1];
    }
  }

  /** What is not a thread's work: the flags, and what a logout starts. */
  function FlagMoves(v: Venue.VenueState, c: Venue.Command): seq<Move> {
    match c
    case SetSilenced(on) => [Toggle(on)]
    case LogonRequested(kind, req, ok) =>
      if v.rejectLogons != "" || !ok then [] else [Arm(kind, req.codType != Venue.COD_DISABLED)]
    case LoggedOn(kind) => [Logon(kind)]
    case LoggedOut(kind, _) => [Logout(kind)]
    case _ => []
  }

  lemma AdvanceShows(v: Venue.VenueState, s: State, kind: Kind, n: int, stored: bool)
    requires Shows(v, s)
    ensures Shows(Venue.DoAdvance(v, kind, n, stored).state, s)
  {
    hide Built, ReportsOf, DroppedOf, Runs.Sents, Venue.Holes;
    if n > 0 && kind in v.logs {
      Reachable.HolesHoldNothing(v.logs[kind], n);
    }
  }

  /** A command that no move stands for leaves what the venue shows alone. */
  lemma NoMoveShows(v: Venue.VenueState, s: State, c: Venue.Command)
    requires Shows(v, s) && StartOf(c).None? && !(c.Expire? && Venue.CanExpire(v, c.timer, c.at))
    requires FlagMoves(v, c) == []
    ensures Shows(Venue.Step(v, c), s)
  {
    hide Built, ReportsOf, DroppedOf, Runs.Sents, Venue.Received, Venue.DoAdvance, Venue.DoChange, Venue.DoFill,
      Venue.DoPartial, Venue.DoCancelAll, BookState.Insert;
    if c.Advance? {
      AdvanceShows(v, s, c.kind, c.n, c.stored);
      hide Shows;
    }
  }

  lemma FlagsShow(v: Venue.VenueState, s: State, c: Venue.Command)
    requires Shows(v, s) && StartOf(c).None? && !(c.Expire? && Venue.CanExpire(v, c.timer, c.at))
    ensures Shows(Venue.Step(v, c), Onward(s, FlagMoves(v, c)))
  {
    hide Built, ReportsOf, DroppedOf, Runs.Sents, Run;
    if FlagMoves(v, c) == [] {
      NoMoveShows(v, s, c);
      hide Shows;
    } else {
      OneOnward(s, FlagMoves(v, c)[0]);
      hide Onward;
    }
  }

  lemma FlagsSpawn(s: State, v: Venue.VenueState, c: Venue.Command)
    ensures Onward(s, FlagMoves(v, c)).threads
      == if c.LoggedOut? && c.kind in s.armed then s.threads + [TimerOf(c.kind)] else s.threads
  {
    hide Run;
    if FlagMoves(v, c) != [] {
      OneOnward(s, FlagMoves(v, c)[0]);
      hide Onward;
    }
  }

  lemma FlagsWait(v: Venue.VenueState, s: State, c: Venue.Command, at: seq<nat>) returns (left: seq<nat>)
    requires Shows(v, s) && Waiting(v, s, at) && StartOf(c).None?
    requires !(c.Expire? && Venue.CanExpire(v, c.timer, c.at))
    ensures Waiting(Venue.Step(v, c), Onward(s, FlagMoves(v, c)), left)
  {
    hide Built, ReportsOf, DroppedOf, Runs.Sents, Venue.Step, Onward, FlagMoves, TimerOf;
    CancelOnDisconnect.SessionStep(v, c);
    FlagsSpawn(s, v, c);
    left := if c.LoggedOut? && c.kind in s.armed then at + [|s.threads|] else at;
  }

  /** Every command, from any matching states, is some moves of the lock-granular venue. */
  lemma CommandIsMoves(v: Venue.VenueState, s: State, c: Venue.Command, at: seq<nat>)
    returns (more: seq<Move>, left: seq<nat>)
    requires Shows(v, s) && Waiting(v, s, at)
    ensures Shows(Venue.Step(v, c), Onward(s, more)) && Waiting(Venue.Step(v, c), Onward(s, more), left)
  {
    hide Shows, Waiting, Venue.Step, Onward, StartOf, FlagMoves;
    if StartOf(c).Some? {
      more := EnteredAndSeenThrough(v, s, c, at);
      left := at;
    } else if c.Expire? && Venue.CanExpire(v, c.timer, c.at) {
      more, left := TimerSeenThrough(v, s, c, at);
    } else {
      FlagsShow(v, s, c);
      left := FlagsWait(v, s, c, at);
      more := FlagMoves(v, c);
    }
  }

  /** Every run of the serialized layer is a run of the lock-granular one: some interleaving shows the same
      book, flags, reports, drops and logs, with nothing in flight but the pending timers. */
  lemma {:induction false} SerializedRunIsInterleaving(cs: seq<Venue.Command>) returns (ms: seq<Move>, at: seq<nat>)
    ensures var v := Reachable.Reached({OrderEntry, DropCopy}, cs); Shows(v, Reached(ms)) && Waiting(v, Reached(ms), at)
  {
    hide Shows, Waiting, Venue.Step, Reached;
    if cs == [] {
      ms, at := [], [];
      NothingReached();
      EmptyShows();
    } else {
      var n := |cs| - 1;
      ms, at := SerializedRunIsInterleaving(cs[..n]);
      var v := Reachable.Reached({OrderEntry, DropCopy}, cs[..n]);
      var more: seq<Move>;
      more, at := CommandIsMoves(v, Reached(ms), cs[n], at);
      ReachedOnward(ms, more);
      ms := ms + more;
    }
  }

  lemma EmptyShows()
    ensures var v := Venue.Initial({OrderEntry, DropCopy}); Shows(v, EMPTY) && Waiting(v, EMPTY, [])
  {
  }
}
