/** The venue, in either layer, and both clients behind the FIX engine. The engine is a channel: an
    append-only log per session, delivered in order, any suffix of which can be sent again marked
    PossDup. */
module Channel {
  import opened Orders
  import opened Identifiers
  import opened Books
  import opened Messages
  import opened Venue
  import opened Runs
  import opened Clients
  import opened Recovery
  import opened ExactlyOnce
  import Reachable
  import Interleaving
  import Concurrent
  import Effects
  import Overtaking
  import Races
  import Crossings
  import Draining

  /** Where the reports come from: the venue command by command, or by its lock sections. */
  datatype Source = Serialized(venue: VenueState) | ByLock(state: Interleaving.State)
  {
    function Log(kind: Kind): seq<Slot> {
      match this
      case Serialized(v) => if kind in v.logs then v.logs[kind] else []
      case ByLock(s) => Slots(if kind == OrderEntry then s.oe else s.dc)
    }
  }

  function Slots(rs: seq<Report>): (slots: seq<Slot>)
    ensures |slots| == |rs| && forall i :: 0 <= i < |rs| ==> slots[i] == Sent(Build(rs[i]))
  {
    seq(|rs|, i requires 0 <= i < |rs| => Sent(Build(rs[i])))
  }

  /** The order-entry client has taken its log from `low` up to `next`, the drop copy up to `copied`. */
  datatype System = System(source: Source, low: nat, next: nat, client: OeState, copied: nat, copy: DcState)
  {
    /** The stretch the order-entry client has taken. */
    function Taken(): seq<Slot> {
      var log := source.Log(OrderEntry);
      if low <= next <= |log| then log[low..next] else []
    }

    /** What has reached the drop copy, at least once. */
    function Copied(): seq<Slot> {
      var log := source.Log(DropCopy);
      if copied <= |log| then log[..copied] else []
    }

    predicate ClientUpToDate() {
      next == |source.Log(OrderEntry)|
    }

    predicate CopyUpToDate() {
      copied == |source.Log(DropCopy)|
    }
  }

  /** What can happen: something at the venue, the delivery of a session's next message, a resend of
      everything from a number the client names (no later than the one it expects), a rebuild that
      loses the order-entry client's memory but not the session's numbers. */
  datatype Event =
    | AtVenue(c: Command)
    | AtLock(m: Interleaving.Move)
    | Deliver(kind: Kind)
    | Resend(kind: Kind, from: nat)
    | Rebuild

  function SourceAfter(src: Source, e: Event): Source {
    match (src, e)
    case (Serialized(v), AtVenue(c)) => Serialized(Step(v, c))
    case (ByLock(s), AtLock(m)) => ByLock(Interleaving.After(s, m))
    case _ => src
  }

  function After(s: System, e: Event): System {
    match e
    case AtVenue(_) => s.(source := SourceAfter(s.source, e))
    case AtLock(_) => s.(source := SourceAfter(s.source, e))
    case Deliver(OrderEntry) =>
      var log := s.source.Log(OrderEntry);
      if s.next >= |log| then s
      else s.(next := s.next + 1, client := OeTake(s.client, log[s.next..s.next + 1], false))
    case Deliver(DropCopy) =>
      var log := s.source.Log(DropCopy);
      if s.copied >= |log| then s
      else s.(copied := s.copied + 1, copy := DcTake(s.copy, log[s.copied..s.copied + 1], false))
    case Resend(OrderEntry, from) =>
      var log := s.source.Log(OrderEntry);
      if from > s.next || s.next > |log| then s
      else s.(low := if from < s.low then from else s.low, next := |log|, client := OeTake(s.client, log[from..], true))
    case Resend(DropCopy, from) =>
      var log := s.source.Log(DropCopy);
      if from > s.copied || s.copied > |log| then s
      else s.(copied := |log|, copy := DcTake(s.copy, log[from..], true))
    case Rebuild => s.(low := s.next, client := NEW_CLIENT)
  }

  // ----- what a source keeps -----

  ghost predicate SourceInv(src: Source) {
    match src
    case Serialized(v) => Inv(v)
    case ByLock(s) => Interleaving.Inv(s)
  }

  ghost predicate Grown(src: Source, n: Source) {
    forall kind :: src.Log(kind) <= n.Log(kind)
  }

  lemma MoveAppends(s: Interleaving.State, m: Interleaving.Move)
    ensures var n := Interleaving.After(s, m); s.oe <= n.oe && s.dc <= n.dc
  {
    hide Interleaving.Run;
    if m.Step? && m.thread < |s.threads| {
      RunAppends(s, m.thread);
    }
  }

  lemma RunAppends(s: Interleaving.State, t: nat)
    requires t < |s.threads|
    ensures var n := Interleaving.Run(s, t); s.oe <= n.oe && s.dc <= n.dc
  {
    var w := (r: Report) => 0.0;
    if !s.threads[t].TakeExecID? && !s.threads[t].SendOe? && !s.threads[t].SendDc? {
      Interleaving.StepLeavesLogs(s, t, w);
      hide Interleaving.Run;
    } else {
      hide ExecId, Interleaving.AfterReport;
    }
  }

  lemma SourceGrows(src: Source, e: Event)
    requires SourceInv(src)
    ensures SourceInv(SourceAfter(src, e)) && Grown(src, SourceAfter(src, e))
  {
    hide Inv, Interleaving.Inv, Step, Interleaving.After, Build;
    match (src, e) {
      case (Serialized(v), AtVenue(c)) =>
        Reachable.StepKeepsInv(v, c);
        StepAppends(v, c);
      case (ByLock(s), AtLock(m)) =>
        Interleaving.AfterKeepsInv(s, m);
        MoveAppends(s, m);
      case _ =>
    }
  }

  lemma SentsOfSlots(rs: seq<Report>)
    ensures |Sents(Slots(rs))| == |rs| && forall i :: 0 <= i < |rs| ==> Sents(Slots(rs))[i] == Build(rs[i])
  {
    hide Build;
    if rs != [] {
      var n := |rs| - 1;
      SentsOfSlots(rs[..n]);
      assert Slots(rs)[..n] == Slots(rs[..n]);
    }
  }

  /** Reports leave the venue with ExecIDs no earlier one on the session carries. */
  lemma LogIsFresh(src: Source, kind: Kind)
    requires SourceInv(src)
    ensures Fresh(Sents(src.Log(kind)))
  {
    match src {
      case Serialized(v) =>
        hide OrderId, BookState.WellKept, BookState.AllSound, Traced, ExecId, Fresh;
        assert Numbered(v);
        if kind in v.logs {
          DeliveredIsFresh(v.issued);
        } else {
          NothingIsFresh();
        }
      case ByLock(s) => LockLogIsFresh(s, if kind == OrderEntry then s.oe else s.dc);
    }
  }

  lemma NothingIsFresh()
    ensures Fresh(Sents([]))
  {
  }

  lemma LockLogIsFresh(s: Interleaving.State, log: seq<Report>)
    requires Interleaving.Inv(s) && (log == s.oe || log == s.dc)
    ensures Fresh(Sents(Slots(log)))
  {
    hide Interleaving.BookInv, Interleaving.LogInv, Interleaving.TradeInv, ExecId, Build, Sents;
    assert Concurrent.Sequenced(s.numbered);
    hide Interleaving.Inv;
    SentsOfSlots(log);
    var ers := Sents(Slots(log));
    forall k | 0 <= k < |ers| ensures ers[k].execID !in ExecIds(ers[..k]) {
      if ers[k].execID in ExecIds(ers[..k]) {
        var er :| er in ers[..k] && er.execID == ers[k].execID;
        var j :| 0 <= j < k && ers[j] == er;
        BuiltView(log[j]);
        BuiltView(log[k]);
        Concurrent.InLogOnce(s, log, j, k);
      }
    }
  }

  // ----- the system's invariant -----

  ghost predicate ClientInv(s: System) {
    var log := s.source.Log(OrderEntry);
    s.low <= s.next <= |log| && s.client.orders == LogView(log, s.low, s.next)
  }

  ghost predicate CopyInv(s: System) {
    var log := s.source.Log(DropCopy);
    s.copied <= |log| && Holds(s.copy, Sents(log[..s.copied]))
  }

  ghost predicate SysInv(s: System) {
    SourceInv(s.source) && ClientInv(s) && CopyInv(s)
  }

  lemma SourceMoveKeepsInv(s: System, e: Event)
    requires SysInv(s)
    ensures SysInv(s.(source := SourceAfter(s.source, e)))
  {
    hide SourceInv, Source.Log, Holds, Views, Sents, SourceAfter;
    var n := SourceAfter(s.source, e);
    SourceGrows(s.source, e);
    assert n.Log(OrderEntry)[s.low..s.next] == s.source.Log(OrderEntry)[s.low..s.next];
    assert n.Log(DropCopy)[..s.copied] == s.source.Log(DropCopy)[..s.copied];
  }

  lemma ClientMoveKeepsInv(s: System, e: Event)
    requires ClientInv(s) && (e == Deliver(OrderEntry) || (e.Resend? && e.kind == OrderEntry) || e == Rebuild)
    ensures ClientInv(After(s, e))
  {
    hide Source.Log, OeTake, LogView;
    var log := s.source.Log(OrderEntry);
    match e {
      case Deliver(_) =>
        if s.next < |log| {
          ClientTakes(s.client, log, s.next, s.next + 1, false);
          LogViewSplits(log, s.low, s.next, s.next + 1);
        }
      case Resend(_, from) =>
        if from <= s.next {
          assert log[from..] == log[from..|log|];
          ClientTakes(s.client, log, from, |log|, true);
          ResendMerges(log, s.low, s.next, from);
        }
      case _ => EmptyStretch(log, s.next);
    }
  }

  /** The client takes a stretch of the log over what it had. */
  lemma ClientTakes(c: OeState, log: seq<Slot>, from: nat, to: nat, possDup: bool)
    requires from <= to <= |log|
    ensures OeTake(c, log[from..to], possDup).orders == c.orders + LogView(log, from, to)
  {
    hide Views, Sents, OeTake;
    TakingAssigns(c, log[from..to], possDup);
  }

  lemma EmptyStretch(log: seq<Slot>, n: nat)
    requires n <= |log|
    ensures LogView(log, n, n) == map[]
  {
    assert log[n..n] == [];
  }

  lemma CopyMoveKeepsInv(s: System, e: Event)
    requires SourceInv(s.source) && CopyInv(s)
    requires e == Deliver(DropCopy) || (e.Resend? && e.kind == DropCopy)
    ensures CopyInv(After(s, e))
  {
    hide SourceInv, Source.Log, DcTake, Holds, Sents, Fresh;
    LogIsFresh(s.source, DropCopy);
    var log := s.source.Log(DropCopy);
    match e {
      case Deliver(_) =>
        if s.copied < |log| {
          TakeStretch(s.copy, log, s.copied, s.copied, s.copied + 1, false);
        }
      case Resend(_, from) =>
        if from <= s.copied {
          assert log[from..] == log[from..|log|] && log[..|log|] == log;
          TakeStretch(s.copy, log, s.copied, from, |log|, true);
        }
    }
  }

  lemma AfterKeepsInv(s: System, e: Event)
    requires SysInv(s)
    ensures SysInv(After(s, e))
  {
    var n := After(s, e);
    match e {
      case AtVenue(_) => SourceMoveKeepsInv(s, e);
      case AtLock(_) => SourceMoveKeepsInv(s, e);
      case Deliver(DropCopy) => CopyMoveKeepsInv(s, e); hide Source.Log, SourceInv, LogView, Holds, DcTake;
      case Resend(DropCopy, _) => CopyMoveKeepsInv(s, e); hide Source.Log, SourceInv, LogView, Holds, DcTake;
      case _ => ClientMoveKeepsInv(s, e); hide Source.Log, SourceInv, LogView, Holds, OeTake;
    }
  }

  // ----- runs -----

  /** A venue without orders: by commands, with these sessions, or by lock sections, with both. */
  datatype Layer = Commands(kinds: set<Kind>) | Locks

  function Empty(layer: Layer): Source {
    match layer
    case Commands(kinds) => Serialized(Initial(kinds))
    case Locks => ByLock(Interleaving.EMPTY)
  }

  function Start(layer: Layer): System {
    System(Empty(layer), 0, 0, NEW_CLIENT, 0, NEW_CONSUMER)
  }

  function Ran(layer: Layer, es: seq<Event>): System {
    if es == [] then Start(layer) else After(Ran(layer, es[..|es| - 1]), es[|es| - 1])
  }

  lemma EmptyInv(layer: Layer)
    ensures SourceInv(Empty(layer))
  {
    hide Inv, Interleaving.Inv;
    match layer {
      case Commands(kinds) => Reachable.InitialInv(kinds);
      case Locks => Interleaving.EmptyInv();
    }
  }

  lemma StartInv(layer: Layer)
    ensures SysInv(Start(layer))
  {
    EmptyInv(layer);
    hide SourceInv;
  }

  lemma {:induction false} RanInv(layer: Layer, es: seq<Event>)
    ensures SysInv(Ran(layer, es))
  {
    hide SysInv, After, Start;
    if es == [] {
      StartInv(layer);
    } else {
      RanInv(layer, es[..|es| - 1]);
      AfterKeepsInv(Ran(layer, es[..|es| - 1]), es[|es| - 1]);
    }
  }

  /** Two clients that have taken the same stretch of the same log agree about every order, whatever
      interruptions, replays and rebuilds either of them went through. */
  lemma RecoveryEqualsNoInterruption(layer: Layer, es: seq<Event>, fs: seq<Event>)
    ensures var s, t := Ran(layer, es), Ran(layer, fs);
      s.source == t.source && s.low == t.low && s.next == t.next ==> s.client.orders == t.client.orders
  {
    hide SourceInv, CopyInv, Ran, LogView, Source.Log;
    RanInv(layer, es);
    RanInv(layer, fs);
  }

  /** Sending a suffix again to a client that is up to date changes nothing but the replay count. */
  lemma ReplayIsIdempotent(layer: Layer, es: seq<Event>, from: nat)
    ensures var s := Ran(layer, es); var log := s.source.Log(OrderEntry);
      s.ClientUpToDate() && s.low <= from <= s.next ==>
        After(s, Resend(OrderEntry, from)) == s.(client := s.client.(replays := s.client.replays + |Sents(log[from..])|))
  {
    hide SourceInv, CopyInv, Ran, Source.Log, OeTake, Views, Sents;
    RanInv(layer, es);
    var s := Ran(layer, es);
    var log := s.source.Log(OrderEntry);
    if s.ClientUpToDate() && s.low <= from <= s.next {
      assert log[from..|log|] == log[from..];
      TakingAssigns(s.client, log[from..], true);
      ResendMerges(log, s.low, s.next, from);
    }
  }

  /** A client knows exactly the orders reported in the stretch it has taken; a rebuilt client, those
      reported since, or in what it has had replayed. */
  lemma ClientKnowsItsStretch(layer: Layer, es: seq<Event>, id: string)
    ensures var s := Ran(layer, es);
      s.low <= s.next <= |s.source.Log(OrderEntry)| && (id in s.client.orders <==> Mentions(Sents(s.Taken()), id))
  {
    hide SourceInv, CopyInv, Ran, Sents, Source.Log;
    RanInv(layer, es);
    ViewsKnow(Sents(Ran(layer, es).Taken()), id);
  }

  /** After any run, in either layer, the drop copy has recorded every report that reached it exactly
      once, in order. */
  lemma DropCopyRecordsExactlyOnce(layer: Layer, es: seq<Event>)
    ensures var s := Ran(layer, es);
      s.copied <= |s.source.Log(DropCopy)| && Erase(s.copy.reports) == Contents(Sents(s.Copied()))
  {
    hide ClientInv, Ran, Sents, Source.Log, SourceInv, Contents, Erase;
    RanInv(layer, es);
  }

  /** And no ExecID twice. */
  lemma DropCopyNeverRepeats(layer: Layer, es: seq<Event>, i: nat, j: nat)
    ensures var rs := Ran(layer, es).copy.reports;
      i < |rs| && j < |rs| && rs[i].execID == rs[j].execID ==> i == j
  {
    hide ClientInv, Ran, Sents, Source.Log, ExecIds, SourceInv;
    RanInv(layer, es);
    var s := Ran(layer, es);
    LogIsFresh(s.source, DropCopy);
    var log := s.source.Log(DropCopy);
    assert log == log[..s.copied] + log[s.copied..];
    SentsConcat(log[..s.copied], log[s.copied..]);
    FreshPrefix(Sents(log), |Sents(s.Copied())|);
    assert Sents(log)[..|Sents(s.Copied())|] == Sents(s.Copied());
    RecordsDiffer(s.copy.reports, Sents(s.Copied()));
  }

  /** The drop copy's records say how each report first reached it: those that an event adds are marked as
      replayed exactly when the event is a resend, and no record is ever changed. */
  lemma RecordsSayHowTheyCame(s: System, e: Event)
    ensures var n := After(s, e).copy.reports;
      && s.copy.reports <= n
      && forall k :: |s.copy.reports| <= k < |n| ==> (n[k].replayed <==> e.Resend?)
  {
    hide Source.Log, DcTake, OeTake, SourceAfter;
    match e {
      case Deliver(DropCopy) =>
        if s.copied < |s.source.Log(DropCopy)| {
          TakingMarks(s.copy, s.source.Log(DropCopy)[s.copied..s.copied + 1], false);
        }
      case Resend(DropCopy, from) =>
        if from <= s.copied <= |s.source.Log(DropCopy)| {
          TakingMarks(s.copy, s.source.Log(DropCopy)[from..], true);
        }
      case _ =>
    }
  }

  lemma RecordsDiffer(rs: seq<DcReport>, ers: seq<ExecReport>)
    requires Erase(rs) == Contents(ers) && Fresh(ers)
    ensures forall i, j :: 0 <= i < j < |rs| ==> rs[i].execID != rs[j].execID
  {
    assert |rs| == |Erase(rs)| == |ers|;
    forall i, j | 0 <= i < j < |rs| ensures rs[i].execID != rs[j].execID {
      assert Erase(rs)[i].execID == ers[i].execID && Erase(rs)[j].execID == ers[j].execID;
      assert ers[i] in ers[..j];
      assert ers[j].execID !in ExecIds(ers[..j]);
    }
  }

  /** An up-to-date client shows, of each order it knows, the last report on its session. */
  lemma UpToDateShowsLast(s: System, id: string)
    requires ClientInv(s) && s.ClientUpToDate() && id in s.client.orders
    ensures var last := LastEr(Sents(s.source.Log(OrderEntry)), id);
      last.Some? && s.client.orders[id] == ViewOf(last.value)
  {
    hide Source.Log, Sents, Views, ViewOf;
    var log := s.source.Log(OrderEntry);
    LogViewSplits(log, 0, s.low, |log|);
    assert log[0..|log|] == log;
    ViewsAreLast(Sents(log), id);
  }

  /** The drop copy's last record about an order. */
  function LastRecord(rs: seq<DcReport>, id: string): Option<DcReport> {
    if rs == [] then None
    else if rs[|rs| - 1].clOrdID == id then Some(rs[|rs| - 1])
    else LastRecord(rs[..|rs| - 1], id)
  }

  lemma {:induction false} LastRecordIsLast(rs: seq<DcReport>, ers: seq<ExecReport>, id: string)
    requires Erase(rs) == Contents(ers)
    ensures var r, er := LastRecord(rs, id), LastEr(ers, id);
      (r.Some? <==> er.Some?) && (r.Some? ==> r.value.(replayed := false) == Content(er.value))
  {
    assert |rs| == |Erase(rs)| == |ers|;
    if rs != [] {
      var n := |rs| - 1;
      assert Erase(rs)[n] == rs[n].(replayed := false) && Contents(ers)[n] == Content(ers[n]);
      assert Erase(rs[..n]) == Erase(rs)[..n] && Contents(ers[..n]) == Contents(ers)[..n];
      LastRecordIsLast(rs[..n], ers[..n], id);
    }
  }

  /** Up to date, the drop copy's last record about an order is the last report about it on its session. */
  lemma CopyHasLast(s: System, id: string)
    requires CopyInv(s) && s.CopyUpToDate()
    ensures var r, last := LastRecord(s.copy.reports, id), LastEr(Sents(s.source.Log(DropCopy)), id);
      (r.Some? <==> last.Some?) && (r.Some? ==> r.value.(replayed := false) == Content(last.value))
  {
    hide Source.Log, Sents, Content, Contents, Erase;
    var log := s.source.Log(DropCopy);
    assert log[..|log|] == log;
    LastRecordIsLast(s.copy.reports, Sents(log), id);
  }

  ghost predicate Reconciled(s: System, id: string)
    requires id in s.client.orders
  {
    var r := LastRecord(s.copy.reports, id);
    r.Some? && r.value.execID == s.client.orders[id].lastExecID && r.value.ordStatus == s.client.orders[id].ordStatus
  }

  // ----- serialized runs -----

  lemma {:induction false} SerializedStays(kinds: set<Kind>, es: seq<Event>)
    ensures var s := Ran(Commands(kinds), es); s.source.Serialized? && s.source.venue.logs.Keys == kinds
  {
    hide Step, After;
    if es == [] {
    } else {
      var before := Ran(Commands(kinds), es[..|es| - 1]);
      SerializedStays(kinds, es[..|es| - 1]);
      RanInv(Commands(kinds), es[..|es| - 1]);
      SameSessions(before, es[|es| - 1]);
    }
  }

  lemma SameSessions(s: System, e: Event)
    requires s.source.Serialized? && Inv(s.source.venue)
    ensures var n := After(s, e);
      n.source.Serialized? && n.source.venue.logs.Keys == s.source.venue.logs.Keys
  {
    hide Inv, Step, Source.Log, OeTake, DcTake;
    if e.AtVenue? {
      StepAppends(s.source.venue, e.c);
    }
  }

  /** The two clients' views reconcile: both up to date, the ExecID and status the order-entry client has
      last seen of an order are those of the drop copy's last record about it. */
  lemma ViewsReconcile(kinds: set<Kind>, es: seq<Event>, id: string)
    requires kinds == {OrderEntry, DropCopy}
    ensures var s := Ran(Commands(kinds), es);
      s.ClientUpToDate() && s.CopyUpToDate() && id in s.client.orders ==> Reconciled(s, id)
  {
    hide Ran, Sents, BookState.WellKept, BookState.AllSound, Traced, Numbered;
    var s := Ran(Commands(kinds), es);
    SerializedStays(kinds, es);
    RanInv(Commands(kinds), es);
    if s.ClientUpToDate() && s.CopyUpToDate() && id in s.client.orders {
      assert Sents(s.source.Log(OrderEntry)) == Sents(s.source.Log(DropCopy));
      hide Inv, Source.Log;
      UpToDateShowsLast(s, id);
      CopyHasLast(s, id);
    }
  }

  /** An up-to-date client shows an order exactly as the book has it, under the ExecID of its last
      event, if and only if the report of that event was not dropped by silence: the order's next
      report that gets through repairs the view. */
  lemma ViewEqualsBookExactlyWhen(kinds: set<Kind>, es: seq<Event>, id: string)
    requires OrderEntry in kinds
    ensures var s := Ran(Commands(kinds), es);
      s.source.Serialized? &&
      var v := s.source.venue; var last := LastIssued(v.issued, id);
      s.ClientUpToDate() && id in s.client.orders ==>
        && id in v.book.orders && last.Some?
        && (s.client.orders[id] == WireView(v.book.orders[id], last.value.report.execID) <==> !last.value.dropped)
  {
    hide Ran, BookState.WellKept, BookState.AllSound, ExecId, WireView, Sents, Views, Delivered, ViewOf;
    SerializedStays(kinds, es);
    RanInv(Commands(kinds), es);
    var s := Ran(Commands(kinds), es);
    var v := s.source.venue;
    if s.ClientUpToDate() && id in s.client.orders {
      UpToDateShowsLast(s, id);
      assert Sents(s.source.Log(OrderEntry)) == Delivered(v.issued);
      ViewsAreLast(Delivered(v.issued), id);
      assert NumberedFrom1(v.issued) by { assert Numbered(v); }
      LastWord(v.issued, id);
      LastIssuedEndsHistory(v.issued, id);
      assert Traced(v, id);
      WireViewCarriesId(v.book.orders[id], LastIssued(v.issued, id).value.report.execID);
    }
  }

  lemma WireViewCarriesId(o: OrderState, execID: string)
    ensures WireView(o, execID).lastExecID == execID
  {
  }

  /** Up to date, the drop copy has every report the venue published and did not drop, in that order. */
  lemma UpToDateDropCopyHasAll(kinds: set<Kind>, es: seq<Event>)
    requires DropCopy in kinds
    ensures var s := Ran(Commands(kinds), es);
      s.source.Serialized? &&
      (s.CopyUpToDate() ==> Erase(s.copy.reports) == Contents(Delivered(s.source.venue.issued)))
  {
    hide Ran, BookState.WellKept, BookState.AllSound, Traced, Numbered, Sents, Delivered, Contents, Erase;
    SerializedStays(kinds, es);
    RanInv(Commands(kinds), es);
    var s := Ran(Commands(kinds), es);
    assert s.source.Log(DropCopy)[..|s.source.Log(DropCopy)|] == s.source.Log(DropCopy);
  }

  // ----- lock by lock -----

  /** The venue's own moves among the events. */
  function MovesOf(es: seq<Event>): seq<Interleaving.Move> {
    if es == [] then [] else
      MovesOf(es[..|es| - 1]) + if es[|es| - 1].AtLock? then [es[|es| - 1].m] else []
  }

  lemma {:induction false} LocksReach(es: seq<Event>)
    ensures Ran(Locks, es).source == ByLock(Interleaving.Reached(MovesOf(es)))
  {
    hide Interleaving.After, Interleaving.Reached, After;
    if es == [] {
      Interleaving.NothingReached();
    } else {
      var before, e := es[..|es| - 1], es[|es| - 1];
      LocksReach(before);
      SourceOf(Ran(Locks, before), e);
      if e.AtLock? {
        Interleaving.ReachedMore(MovesOf(before), e.m);
      } else {
        assert MovesOf(before) + [] == MovesOf(before);
      }
    }
  }

  lemma SourceOf(s: System, e: Event)
    ensures After(s, e).source == SourceAfter(s.source, e)
  {
    hide Source.Log, Step, Interleaving.After;
  }

  lemma {:induction false} LastBuilt(rs: seq<Report>, id: string)
    ensures var r, er := Overtaking.LastAbout(rs, id), LastEr(Sents(Slots(rs)), id);
      (r.Some? <==> er.Some?) && (r.Some? ==> r.value in rs && er.value == Build(r.value))
  {
    hide Build;
    if rs != [] {
      var n := |rs| - 1;
      assert Slots(rs)[..n] == Slots(rs[..n]);
      assert Sents(Slots(rs)) == Sents(Slots(rs[..n])) + [Build(rs[n])];
      BuiltView(rs[n]);
      LastBuilt(rs[..n], id);
    }
  }

  /** Under any interleaving of lock sections, up to date and with nothing in flight, the drop copy has
      recorded every report that was numbered and not dropped, and no other. */
  lemma DropCopyHasAllUnderInterleaving(es: seq<Event>)
    ensures var s, v := Ran(Locks, es), Interleaving.Reached(MovesOf(es));
      s.CopyUpToDate() && Concurrent.Quiet(v) ==>
        && |s.copy.reports| + |v.dropped| == |v.numbered|
        && forall r :: r in v.numbered && r !in v.dropped ==> Content(Build(r)) in Erase(s.copy.reports)
  {
    hide Ran, Interleaving.Reached, Sents, Build, Content;
    var s, v := Ran(Locks, es), Interleaving.Reached(MovesOf(es));
    LocksReach(es);
    RanInv(Locks, es);
    if s.CopyUpToDate() && Concurrent.Quiet(v) {
      hide Concurrent.Quiet, Interleaving.Inv;
      Concurrent.QuietLogsArePermutations(MovesOf(es));
      var log := s.source.Log(DropCopy);
      assert log[..|log|] == log;
      SentsOfSlots(v.dc);
      assert Erase(s.copy.reports) == Contents(Sents(Slots(v.dc)));
      Counted(v.dc, v.dropped, v.numbered);
      forall r | r in v.numbered && r !in v.dropped ensures Content(Build(r)) in Erase(s.copy.reports) {
        var i :| 0 <= i < |v.dc| && v.dc[i] == r;
        assert Contents(Sents(Slots(v.dc)))[i] == Content(Build(r));
      }
    }
  }

  lemma Counted(a: seq<Report>, b: seq<Report>, c: seq<Report>)
    requires multiset(a) + multiset(b) == multiset(c)
    ensures |a| + |b| == |c| && forall r :: r in c && r !in b ==> r in a
  {
    assert |multiset(a) + multiset(b)| == |multiset(c)|;
    forall r | r in c && r !in b ensures r in a {
      assert r in multiset(c) && r !in multiset(b);
      assert (multiset(a) + multiset(b))[r] > 0;
    }
  }

  /** An up-to-date client shows an order as booked, once nothing is in flight, if no report about it was
      dropped and none was overtaken on its way to the session. */
  lemma ViewEqualsBookWithoutOverlap(es: seq<Event>, id: string)
    requires Overtaking.NeverOverlaps(MovesOf(es), OrderEntry, id)
    ensures var s, v := Ran(Locks, es), Interleaving.Reached(MovesOf(es));
      s.ClientUpToDate() && Concurrent.Quiet(v) && !Overtaking.SomeAbout(v.dropped, id)
      && id in s.client.orders ==>
        id in v.book.orders && s.client.orders[id] == WireView(v.book.orders[id], s.client.orders[id].lastExecID)
  {
    hide Ran, Interleaving.Reached, Sents, Overtaking.NeverOverlaps, Overtaking.SomeAbout, Concurrent.Quiet,
      Overtaking.LastAbout;
    var s, v := Ran(Locks, es), Interleaving.Reached(MovesOf(es));
    LocksReach(es);
    RanInv(Locks, es);
    Overtaking.LastReportIsCurrent(MovesOf(es), OrderEntry, id);
    if s.ClientUpToDate() && id in s.client.orders {
      hide SourceInv, CopyInv;
      ShowsLastAbout(s, v, id);
      LastBuilt(v.oe, id);
      Races.ReachedLogSound(MovesOf(es), OrderEntry);
      assert Races.SentSound(v.book, Overtaking.LastAbout(v.oe, id).value);
      AboutIsAbout(v.oe, id);
    }
  }

  lemma {:induction false} AboutIsAbout(rs: seq<Report>, id: string)
    ensures Overtaking.LastAbout(rs, id).Some? ==> Overtaking.LastAbout(rs, id).value.order.terms.clOrdID == id
  {
    if rs != [] {
      AboutIsAbout(rs[..|rs| - 1], id);
    }
  }

  /** An up-to-date client shows the last report about the order on its session's log. */
  lemma ShowsLastAbout(s: System, v: Interleaving.State, id: string)
    requires s.source == ByLock(v) && ClientInv(s) && s.ClientUpToDate() && id in s.client.orders
    ensures var last := Overtaking.LastAbout(v.oe, id);
      && last.Some? && s.client.orders[id] == WireView(last.value.order, last.value.execID)
      && s.client.orders[id].lastExecID == last.value.execID && s.client.orders[id].ordStatus == last.value.order.status
  {
    hide Sents, LogView;
    UpToDateShowsLast(s, id);
    LastBuilt(v.oe, id);
    hide Source.Log;
    BuiltView(Overtaking.LastAbout(v.oe, id).value);
  }

  /** If the session's last report about an order was overtaken, that is what an up-to-date client shows:
      the order in an earlier state than booked. */
  lemma OvertakenViewIsBehind(es: seq<Event>, id: string)
    ensures var s, v := Ran(Locks, es), Interleaving.Reached(MovesOf(es));
      s.ClientUpToDate() && id in s.client.orders && Races.Overtaken(v, OrderEntry, id) ==>
        var last := Overtaking.LastAbout(v.oe, id).value;
        Effects.Before(last.order, v.book.orders[id]) && s.client.orders[id] == WireView(last.order, last.execID)
  {
    hide Ran, Interleaving.Reached, Sents, Effects.Before, WireView;
    var s, v := Ran(Locks, es), Interleaving.Reached(MovesOf(es));
    LocksReach(es);
    RanInv(Locks, es);
    if s.ClientUpToDate() && id in s.client.orders && Races.Overtaken(v, OrderEntry, id) {
      hide SourceInv, CopyInv;
      ShowsLastAbout(s, v, id);
    }
  }

  /** Lock by lock the two up-to-date clients reconcile on an order exactly when the two sessions end
      with the same report about it. */
  lemma ReconcilesExactlyWhen(es: seq<Event>, id: string)
    ensures var s, v := Ran(Locks, es), Interleaving.Reached(MovesOf(es));
      s.ClientUpToDate() && s.CopyUpToDate() && id in s.client.orders ==>
        (Reconciled(s, id) <==> Overtaking.LastAbout(v.oe, id) == Overtaking.LastAbout(v.dc, id))
  {
    hide Ran, Interleaving.Reached, Sents, Overtaking.LastAbout, WireView, SourceInv, Source.Log, Build, Content;
    var ms := MovesOf(es);
    var s, v := Ran(Locks, es), Interleaving.Reached(ms);
    LocksReach(es);
    RanInv(Locks, es);
    if s.ClientUpToDate() && s.CopyUpToDate() && id in s.client.orders {
      LockLogs(v);
      ShowsLastAbout(s, v, id);
      CopyHasLast(s, id);
      LastBuilt(v.oe, id);
      LastBuilt(v.dc, id);
      var a, b := Overtaking.LastAbout(v.oe, id), Overtaking.LastAbout(v.dc, id);
      if b.Some? {
        BuiltContent(b.value);
        var i: nat :| i < |v.oe| && v.oe[i] == a.value;
        var j: nat :| j < |v.dc| && v.dc[j] == b.value;
        Concurrent.SessionsAgreePerExecId(ms, i, j);
      }
    }
  }

  lemma LockLogs(v: Interleaving.State)
    ensures ByLock(v).Log(OrderEntry) == Slots(v.oe) && ByLock(v).Log(DropCopy) == Slots(v.dc)
  {
  }

  lemma BuiltContent(r: Report)
    ensures Content(Build(r)).execID == r.execID && Content(Build(r)).ordStatus == r.order.status
  {
  }

  /** If no report about the order goes out on the first session while another is between its two sends,
      the two up-to-date clients reconcile on it once nothing is in flight. */
  lemma ReconcilesWithoutCrossing(es: seq<Event>, id: string)
    requires Crossings.NeverCrosses(MovesOf(es), id)
    ensures !EndsAtOdds(es, id)
  {
    hide Ran, Interleaving.Reached, Crossings.NeverCrosses, Overtaking.LastAbout, Concurrent.Quiet, Reconciled;
    Crossings.SessionsEndAlike(MovesOf(es), id);
    ReconcilesExactlyWhen(es, id);
  }

  /** Nothing is in flight, both clients have all there is, and they do not reconcile on the order. */
  ghost predicate EndsAtOdds(es: seq<Event>, id: string) {
    var s := Ran(Locks, es);
    && Concurrent.Quiet(Interleaving.Reached(MovesOf(es)))
    && s.ClientUpToDate() && s.CopyUpToDate() && id in s.client.orders && !Reconciled(s, id)
  }

  function LockEvents(ms: seq<Interleaving.Move>): seq<Event> {
    if ms == [] then [] else LockEvents(ms[..|ms| - 1]) + [AtLock(ms[|ms| - 1])]
  }

  lemma {:induction false} MovesOfLockEvents(ms: seq<Interleaving.Move>)
    ensures MovesOf(LockEvents(ms)) == ms
  {
    if ms != [] {
      var past := LockEvents(ms[..|ms| - 1]);
      MovesOfLockEvents(ms[..|ms| - 1]);
      MovesOfMore(past, AtLock(ms[|ms| - 1]));
    }
  }

  lemma MovesOfMore(es: seq<Event>, e: Event)
    ensures MovesOf(es + [e]) == MovesOf(es) + if e.AtLock? then [e.m] else []
  {
    assert (es + [e])[..|es|] == es;
  }

  lemma RanMore(es: seq<Event>, e: Event)
    ensures Ran(Locks, es + [e]) == After(Ran(Locks, es), e)
  {
    hide After;
    assert (es + [e])[..|es|] == es;
  }

  /** Both clients ask for everything from the start. */
  function CaughtUp(es: seq<Event>): seq<Event> {
    es + [Resend(OrderEntry, 0)] + [Resend(DropCopy, 0)]
  }

  lemma CatchingUp(es: seq<Event>)
    ensures MovesOf(CaughtUp(es)) == MovesOf(es)
    ensures var s := Ran(Locks, CaughtUp(es));
      s.source == Ran(Locks, es).source && s.ClientUpToDate() && s.CopyUpToDate() && s.low == 0
  {
    hide Ran, Source.Log, SourceInv, OeTake, DcTake, LogView, Holds;
    MovesOfMore(es, Resend(OrderEntry, 0));
    MovesOfMore(es + [Resend(OrderEntry, 0)], Resend(DropCopy, 0));
    RanMore(es, Resend(OrderEntry, 0));
    RanMore(es + [Resend(OrderEntry, 0)], Resend(DropCopy, 0));
    RanInv(Locks, es);
  }

  /** A run of the venue that ends with different reports last on the two sessions leaves the clients at
      odds, however they get what there is. */
  lemma ApartEndsAtOdds(es: seq<Event>, id: string)
    requires var v := Interleaving.Reached(MovesOf(es)); Concurrent.Quiet(v) && Crossings.Apart(v, id)
    ensures EndsAtOdds(CaughtUp(es), id)
  {
    hide Ran, Interleaving.Reached, Overtaking.LastAbout, Concurrent.Quiet, Reconciled, CaughtUp, Source.Log, Sents,
      SourceInv, CopyInv, MovesOf;
    var v, s := Interleaving.Reached(MovesOf(es)), Ran(Locks, CaughtUp(es));
    CatchingUp(es);
    LocksReach(CaughtUp(es));
    RanInv(Locks, CaughtUp(es));
    LockLogs(v);
    LastBuilt(v.oe, id);
    ViewsAreLast(Sents(Slots(v.oe)), id);
    assert Slots(v.oe)[0..|Slots(v.oe)|] == Slots(v.oe);
    assert id in s.client.orders;
    ReconcilesExactlyWhen(CaughtUp(es), id);
  }

  /** Whatever the way the venue is used: the two clients can end at odds about an order, with nothing in
      flight and nothing left to take, exactly when in some run a report about it goes out on the first
      session while another is between its two sends. */
  lemma ClientsEndAtOddsExactlyWhen(runs: Draining.Runs, id: string)
    requires Draining.Natural(runs)
    ensures (exists es :: runs(MovesOf(es)) && EndsAtOdds(es, id))
       <==> (exists ms, k: nat :: runs(ms) && k < |ms| && Crossings.CrossingAt(ms, k, id))
  {
    hide Interleaving.Reached, Concurrent.Quiet, EndsAtOdds, MovesOf, Crossings.CrossingAt, Crossings.Apart,
      Draining.Natural, LockEvents, CaughtUp;
    if ms: seq<Interleaving.Move>, k: nat :| runs(ms) && k < |ms| && Crossings.CrossingAt(ms, k, id) {
      var w := Crossings.RunCanEndApart(runs, ms, k, id);
      MovesOfLockEvents(w);
      CatchingUp(LockEvents(w));
      ApartEndsAtOdds(LockEvents(w), id);
      assert runs(MovesOf(CaughtUp(LockEvents(w))));
    }
    if es: seq<Event> :| runs(MovesOf(es)) && EndsAtOdds(es, id) {
      if Crossings.NeverCrosses(MovesOf(es), id) {
        ReconcilesWithoutCrossing(es, id);
      }
    }
  }
}
