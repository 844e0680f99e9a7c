/** The two consumers: the order-entry view, which assigns, and the drop copy, which deduplicates. */
module Clients {
  import opened Decimals
  import opened Orders
  import opened Identifiers
  import opened Messages
  import opened Watchdogs

  /** The order-entry client's record of an order. */
  datatype OrderView = OrderView(
    clOrdID: string,
    ordStatus: Status,
    cumQty: real,
    leavesQty: real,
    avgPx: real,
    lastExecID: string)

  datatype OeState = OeState(orders: map<string, OrderView>, replays: nat)

  const NEW_CLIENT := OeState(map[], 0)

  /** What the client is asked to send. */
  datatype NewOrder = NewOrder(symbol: string, side: string, orderQty: real, price: real, account: string)

  /** OrdType (40) of a limit order. */
  const LIMIT := "2"

  /** The client's NewOrderSingle: a limit order for the day, whole quantity, price in cents. */
  function Written(clOrdID: string, o: NewOrder): OrderFields {
    OrderFields(Some(clOrdID), Some(o.symbol), Some(o.side), Some(Round(o.orderQty, QTY_SCALE)), Some(LIMIT),
                Some(Round(o.price, PX_SCALE)), Some(TIF_DAY), if o.account == "" then None else Some(o.account))
  }

  /** The first tag an execution report lacks of those the order-entry client needs. */
  function OeMissing(f: ReportFields): Option<Rejection> {
    if f.clOrdID.None? then Some(MissingTag(11))
    else if f.execType.None? then Some(MissingTag(150))
    else if f.ordStatus.None? then Some(MissingTag(39))
    else if f.cumQty.None? then Some(MissingTag(14))
    else if f.leavesQty.None? then Some(MissingTag(151))
    else if f.avgPx.None? then Some(MissingTag(6))
    else if f.execID.None? then Some(MissingTag(17))
    else None
  }

  /** Cumulative fields are assigned, never added. */
  function OeReport(s: OeState, f: ReportFields, possDup: bool): OeState {
    if OeMissing(f).Some? then s else
      var view := OrderView(f.clOrdID.value, f.ordStatus.value, f.cumQty.value,
                            f.leavesQty.value, f.avgPx.value, f.execID.value);
      OeState(s.orders[f.clOrdID.value := view], s.replays + if possDup then 1 else 0)
  }

  function OeAnswer(b: Body): Option<Rejection> {
    match b
    case ExecutionReport(f) => OeMissing(f)
    case BusinessReject => None
    case NoMsgType => Some(MissingTag(35))
    case _ => Some(Unsupported)
  }

  /** A report is taken exactly when it has the seven tags 11, 150, 39, 14, 151, 6 and 17, and is otherwise
      answered for the first it lacks; the OrderID is not asked for. */
  lemma OeReadsExactlyWhen(f: ReportFields)
    ensures OeMissing(f).None? <==>
      && f.clOrdID.Some? && f.execType.Some? && f.ordStatus.Some? && f.cumQty.Some?
      && f.leavesQty.Some? && f.avgPx.Some? && f.execID.Some?
    ensures OeMissing(f) == Some(MissingTag(11)) <==> f.clOrdID.None?
    ensures OeMissing(f) == Some(MissingTag(150)) <==> f.clOrdID.Some? && f.execType.None?
    ensures OeMissing(f) == Some(MissingTag(39)) <==> f.clOrdID.Some? && f.execType.Some? && f.ordStatus.None?
    ensures OeMissing(f) == Some(MissingTag(14)) <==>
      f.clOrdID.Some? && f.execType.Some? && f.ordStatus.Some? && f.cumQty.None?
    ensures OeMissing(f) == Some(MissingTag(151)) <==>
      f.clOrdID.Some? && f.execType.Some? && f.ordStatus.Some? && f.cumQty.Some? && f.leavesQty.None?
    ensures OeMissing(f) == Some(MissingTag(6)) <==>
      && f.clOrdID.Some? && f.execType.Some? && f.ordStatus.Some? && f.cumQty.Some?
      && f.leavesQty.Some? && f.avgPx.None?
    ensures OeMissing(f) == Some(MissingTag(17)) <==>
      && f.clOrdID.Some? && f.execType.Some? && f.ordStatus.Some? && f.cumQty.Some?
      && f.leavesQty.Some? && f.avgPx.Some? && f.execID.None?
  {
  }

  /** What the order-entry client leaves unanswered: reports it can read, and business rejects. */
  lemma OeAnswersExactlyWhen(b: Body)
    ensures OeAnswer(b).None? <==> b.BusinessReject? || (b.ExecutionReport? && OeMissing(b.fields).None?)
    ensures OeAnswer(b) == Some(MissingTag(35)) <==> b.NoMsgType?
    ensures OeAnswer(b) == Some(Unsupported) <==> b.NewOrderSingle? || b.SessionReject? || b.OtherType?
  {
  }

  class OrderEntryClient {
    const base: Client
    var prefix: string
    var counter: nat
    var orders: map<string, OrderView>
    var replays: nat

    constructor ()
      ensures State() == NEW_CLIENT && counter == 0 && prefix == "" && fresh(base) && base.onInbound == []
    {
      base := new Client();
      prefix, counter, orders, replays := "", 0, map[], 0;
    }

    function State(): OeState
      reads this
    {
      OeState(orders, replays)
    }

    method FromApp(m: Message, now: int) returns (rejection: Option<Rejection>)
      modifies this`orders, this`replays, base.onInbound
      ensures rejection == OeAnswer(m.body)
      ensures State() == if m.body.ExecutionReport? then OeReport(old(State()), m.body.fields, m.possDup)
                         else old(State())
      ensures forall w <- base.onInbound :: w.State() == old(w.State()).(lastApp := now)
    {
      base.NoteInbound(InboundApp, now);
      match m.body
      case ExecutionReport(f) => rejection := OnExecutionReport(f, m.possDup);
      case BusinessReject => rejection := None;
      case NoMsgType => rejection := Some(MissingTag(35));
      case _ => rejection := Some(Unsupported);
    }

    method OnExecutionReport(f: ReportFields, possDup: bool) returns (rejection: Option<Rejection>)
      modifies this`orders, this`replays
      ensures rejection == OeMissing(f)
      ensures State() == OeReport(old(State()), f, possDup)
    {
      rejection := OeMissing(f);
      if rejection.Some? {
        return;
      }
      orders := orders[f.clOrdID.value := OrderView(
        f.clOrdID.value, f.ordStatus.value, f.cumQty.value, f.leavesQty.value, f.avgPx.value, f.execID.value)];
      if possDup {
        replays := replays + 1;
      }
    }

    method SetClOrdIDPrefix(p: string)
      modifies this`prefix
      ensures prefix == p
    {
      prefix := p;
    }

    method ResetClOrdIDSeq()
      modifies this`counter
      ensures counter == 0
    {
      counter := 0;
    }

    /** Numbers the next order and writes its message. */
    method Send(o: NewOrder) returns (clOrdID: string, sent: OrderFields)
      modifies this`counter
      ensures counter == old(counter) + 1 && clOrdID == ClOrdId(prefix, counter)
      ensures sent == Written(clOrdID, o)
    {
      counter := counter + 1;
      clOrdID := ClOrdId(prefix, counter);
      sent := OrderFields(
        Some(clOrdID), Some(o.symbol), Some(o.side), Some(Round(o.orderQty, QTY_SCALE)), Some(LIMIT),
        Some(Round(o.price, PX_SCALE)), Some(TIF_DAY), None);
      if o.account != "" {
        sent := sent.(account := Some(o.account));
      }
    }
  }

  /** What the drop copy records of a report. */
  datatype DcReport = DcReport(
    execID: string,
    clOrdID: string,
    orderID: string,
    execType: ExecType,
    ordStatus: Status,
    replayed: bool)

  datatype DcState = DcState(seen: set<string>, reports: seq<DcReport>, dupes: nat)

  const NEW_CONSUMER := DcState({}, [], 0)

  function DcMissing(f: ReportFields): Option<Rejection> {
    if f.execID.None? then Some(MissingTag(17))
    else if f.execType.None? then Some(MissingTag(150))
    else if f.ordStatus.None? then Some(MissingTag(39))
    else if f.orderID.None? then Some(MissingTag(37))
    else None
  }

  function DcRecord(f: ReportFields, possDup: bool): DcReport
    requires DcMissing(f).None?
  {
    DcReport(f.execID.value, if f.clOrdID.Some? then f.clOrdID.value else "", f.orderID.value,
             f.execType.value, f.ordStatus.value, possDup)
  }

  function DcReceive(s: DcState, f: ReportFields, possDup: bool): DcState {
    if DcMissing(f).Some? then s
    else if f.execID.value in s.seen then s.(dupes := s.dupes + 1)
    else s.(seen := s.seen + {f.execID.value}, reports := s.reports + [DcRecord(f, possDup)])
  }

  function DcAnswer(b: Body): Option<Rejection> {
    match b
    case ExecutionReport(f) => DcMissing(f)
    case NoMsgType => Some(MissingTag(35))
    case _ => None
  }

  /** The drop copy takes a report exactly when it has the four tags 17, 150, 39 and 37. */
  lemma DcReadsExactlyWhen(f: ReportFields)
    ensures DcMissing(f).None? <==> f.execID.Some? && f.execType.Some? && f.ordStatus.Some? && f.orderID.Some?
    ensures DcMissing(f) == Some(MissingTag(17)) <==> f.execID.None?
    ensures DcMissing(f) == Some(MissingTag(150)) <==> f.execID.Some? && f.execType.None?
    ensures DcMissing(f) == Some(MissingTag(39)) <==> f.execID.Some? && f.execType.Some? && f.ordStatus.None?
    ensures DcMissing(f) == Some(MissingTag(37)) <==>
      f.execID.Some? && f.execType.Some? && f.ordStatus.Some? && f.orderID.None?
  {
  }

  /** It answers nothing else but a message without a type. */
  lemma DcAnswersExactlyWhen(b: Body)
    ensures DcAnswer(b).Some? <==> b.NoMsgType? || (b.ExecutionReport? && DcMissing(b.fields).Some?)
    ensures DcAnswer(b) == Some(MissingTag(35)) <==> b.NoMsgType?
  {
  }

  class DropCopyClient {
    const base: Client
    var seen: set<string>
    var reports: seq<DcReport>
    var dupes: nat

    constructor ()
      ensures State() == NEW_CONSUMER && fresh(base) && base.onInbound == []
    {
      base := new Client();
      seen, reports, dupes := {}, [], 0;
    }

    function State(): DcState
      reads this
    {
      DcState(seen, reports, dupes)
    }

    method FromApp(m: Message, now: int) returns (rejection: Option<Rejection>)
      modifies this`seen, this`reports, this`dupes, base.onInbound
      ensures rejection == DcAnswer(m.body)
      ensures State() == if m.body.ExecutionReport? then DcReceive(old(State()), m.body.fields, m.possDup)
                         else old(State())
      ensures forall w <- base.onInbound :: w.State() == old(w.State()).(lastApp := now)
    {
      base.NoteInbound(InboundApp, now);
      match m.body
      case NoMsgType => rejection := Some(MissingTag(35));
      case ExecutionReport(f) => rejection := OnExecutionReport(f, m.possDup);
      case _ => rejection := None;
    }

    method OnExecutionReport(f: ReportFields, possDup: bool) returns (rejection: Option<Rejection>)
      modifies this`seen, this`reports, this`dupes
      ensures rejection == DcMissing(f)
      ensures State() == DcReceive(old(State()), f, possDup)
    {
      rejection := DcMissing(f);
      if rejection.Some? {
        return;
      }
      if f.execID.value in seen {
        dupes := dupes + 1;
        return;
      }
      seen := seen + {f.execID.value};
      reports := reports + [DcRecord(f, possDup)];
    }
  }

  /** A report that reached a consumer: its fields and whether it was marked as a replay. */
  datatype Delivery = Delivery(fields: ReportFields, possDup: bool)

  function DcAfter(s: DcState, ds: seq<Delivery>): DcState {
    if ds == [] then s
    else DcReceive(DcAfter(s, ds[..|ds| - 1]), ds[|ds| - 1].fields, ds[|ds| - 1].possDup)
  }

  ghost predicate Readable(ds: seq<Delivery>) {
    forall i :: 0 <= i < |ds| ==> DcMissing(ds[i].fields).None?
  }

  /** The record of a delivery: what it said, and whether it came as a replay. */
  predicate RecordOf(r: DcReport, d: Delivery) {
    && d.fields.execID == Some(r.execID) && d.fields.orderID == Some(r.orderID)
    && d.fields.execType == Some(r.execType) && d.fields.ordStatus == Some(r.ordStatus)
    && r.clOrdID == (if d.fields.clOrdID.Some? then d.fields.clOrdID.value else "")
    && r.replayed == d.possDup
  }

  /** Delivery `i` is the first with its ExecID. */
  ghost predicate FirstOccurrence(ds: seq<Delivery>, i: nat)
    requires i < |ds|
  {
    forall j :: 0 <= j < i ==> ds[j].fields.execID != ds[i].fields.execID
  }

  ghost predicate Arrived(ds: seq<Delivery>, execID: string) {
    exists i :: 0 <= i < |ds| && ds[i].fields.execID == Some(execID)
  }

  lemma ArrivedStep(ds: seq<Delivery>, execID: string)
    requires ds != []
    ensures var n := |ds| - 1;
      Arrived(ds, execID) <==> Arrived(ds[..n], execID) || ds[n].fields.execID == Some(execID)
  {
    var n := |ds| - 1;
    if i :| 0 <= i < n && ds[..n][i].fields.execID == Some(execID) {
      assert ds[i].fields.execID == Some(execID);
    }
    if i :| 0 <= i < n && ds[i].fields.execID == Some(execID) {
      assert ds[..n][i].fields.execID == Some(execID);
    }
  }

  lemma SameOccurrence(ds: seq<Delivery>, n: nat, i: nat)
    requires i < n <= |ds|
    ensures FirstOccurrence(ds[..n], i) == FirstOccurrence(ds, i)
  {
  }

  lemma FirstIfNotArrived(ds: seq<Delivery>)
    requires ds != [] && Readable(ds)
    ensures var n := |ds| - 1;
      FirstOccurrence(ds, n) <==> !Arrived(ds[..n], ds[n].fields.execID.value)
  {
    var n := |ds| - 1;
    var x := ds[n].fields.execID;
    if i :| 0 <= i < n && ds[..n][i].fields.execID == x {
      assert ds[i].fields.execID == x;
    }
    if j :| 0 <= j < n && ds[j].fields.execID == x {
      assert ds[..n][j].fields.execID == x;
    }
  }

  lemma RecordIsOf(d: Delivery)
    requires DcMissing(d.fields).None?
    ensures RecordOf(DcRecord(d.fields, d.possDup), d)
  {
  }

  /** Whatever is delivered, however often: the recorded reports are the first occurrences, in
      arrival order, and every delivery is either recorded or counted as a duplicate. */
  lemma {:induction false} RecordsFirstOccurrences(ds: seq<Delivery>) returns (at: seq<nat>)
    requires Readable(ds)
    ensures var s := DcAfter(NEW_CONSUMER, ds);
      && |at| == |s.reports|
      && (forall k :: 0 <= k < |at| ==> at[k] < |ds|)
      && (forall k :: 0 <= k < |at| ==> RecordOf(s.reports[k], ds[at[k]]))
      && (forall j, k :: 0 <= j < k < |at| ==> at[j] < at[k])
      && (forall i: nat :: i < |ds| ==> (i in at <==> FirstOccurrence(ds, i)))
      && |s.reports| + s.dupes == |ds|
      && (forall x :: x in s.seen <==> Arrived(ds, x))
  {
    hide DcRecord, RecordOf, FirstOccurrence;
    if ds == [] {
      at := [];
    } else {
      var n := |ds| - 1;
      var before := ds[..n];
      at := RecordsFirstOccurrences(before);
      FirstIfNotArrived(ds);
      RecordIsOf(ds[n]);
      hide Arrived;
      forall i: nat | i < n ensures FirstOccurrence(ds, i) <==> FirstOccurrence(before, i) {
        SameOccurrence(ds, n, i);
      }
      forall y ensures y in DcAfter(NEW_CONSUMER, ds).seen <==> Arrived(ds, y) {
        ArrivedStep(ds, y);
      }
      if ds[n].fields.execID.value !in DcAfter(NEW_CONSUMER, before).seen {
        at := at + [n];
      }
    }
  }

  /** The deliveries with every field the drop copy needs. */
  function OnlyReadable(ds: seq<Delivery>): (rs: seq<Delivery>)
    ensures forall i :: 0 <= i < |rs| ==> DcMissing(rs[i].fields).None?
  {
    if ds == [] then [] else
      var last := ds[|ds| - 1];
      OnlyReadable(ds[..|ds| - 1]) + if DcMissing(last.fields).None? then [last] else []
  }

  /** A report with a field missing leaves no trace, so the accounting above is that of the rest. */
  lemma {:induction false} UnreadableLeavesNoTrace(s: DcState, ds: seq<Delivery>)
    ensures Readable(OnlyReadable(ds)) && DcAfter(s, ds) == DcAfter(s, OnlyReadable(ds))
  {
    if ds != [] {
      var before, last := ds[..|ds| - 1], ds[|ds| - 1];
      UnreadableLeavesNoTrace(s, before);
      var kept := OnlyReadable(before);
      assert (kept + [last])[..|kept|] == kept && kept + [] == kept;
    }
  }
}
