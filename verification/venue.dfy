/** The venue as a value: every command it obeys, run to the end. The class in module Exchange is
    proved against these functions; the theorems about whole runs are proved about them. */
module Venue {
  import opened Orders
  import opened Identifiers
  import opened Books
  import opened Messages

  /** One number of a session's outbound log. A hole is a number that replays as nothing: an admin
      message, or one skipped by AdvanceSeqNum. */
  datatype Slot = Hole | Sent(er: ExecReport)

  /** What a Logon asked for (tags 35002 and 35003). */
  datatype LogonRequest = LogonRequest(codType: int, codWindow: int)

  const COD_DISABLED := 0

  /** A pending cancel-on-disconnect callback. */
  datatype Timer = Timer(kind: Kind, startedAt: int, window: int)
  {
    function Deadline(): int {
      startedAt + window
    }
  }

  /** A published report and whether the venue was silenced when it was. */
  datatype Issued = Issued(report: Report, dropped: bool)

  /** `issued` is history: every report ever published, also the dropped ones. */
  datatype VenueState = VenueState(
    book: BookState,
    silenced: bool,
    rejectLogons: string,
    logs: map<Kind, seq<Slot>>,
    loggedOn: set<Kind>,
    cod: map<Kind, LogonRequest>,
    timers: seq<Timer>,
    issued: seq<Issued>)

  function Initial(kinds: set<Kind>): VenueState {
    VenueState(EMPTY_BOOK, false, "", map k | k in kinds :: [], {}, map[], [], [])
  }

  datatype Outcome = Outcome(state: VenueState, error: Option<Error>)

  /** Every configured session gets its own copy, whether or not it is connected. */
  function Fanout(logs: map<Kind, seq<Slot>>, slot: Slot): map<Kind, seq<Slot>> {
    map k | k in logs :: logs[k] + [slot]
  }

  /** One event gets one ExecID, whichever sessions see it. */
  function Publish(v: VenueState, r: Report): VenueState {
    var numbered := r.(execID := ExecId(v.book.execSeq + 1));
    var next := v.(book := v.book.(execSeq := v.book.execSeq + 1),
                   issued := v.issued + [Issued(numbered, v.silenced)]);
    if v.silenced then next
    else next.(logs := Fanout(v.logs, Sent(Build(numbered))))
  }

  function DoChange(v: VenueState, id: string, c: Change, reason: string): Outcome {
    match v.book.Update(id, c)
    case Err(e) => Outcome(v, Some(e))
    case Ok(b) => Outcome(Publish(v.(book := b), Describe(c, b.orders[id], reason)), None)
  }

  function DoPartial(v: VenueState, id: string, qty: real, px: real): Outcome {
    if qty <= 0.0 then Outcome(v, Some(QtyNotPositive)) else DoChange(v, id, Trade(qty, px), "")
  }

  function DoFill(v: VenueState, id: string, px: real): Outcome {
    if id !in v.book.orders then Outcome(v, Some(UnknownClOrdID))
    else DoPartial(v, id, v.book.orders[id].LeavesQty(), px)
  }

  function DoClose(v: VenueState, id: string, to: Status, reason: string): Outcome {
    DoChange(v, id, Close(to), reason)
  }

  /** The mass cancel takes the orders of its snapshot one at a time. */
  function DoCancelEach(v: VenueState, os: seq<OrderState>, reason: string): VenueState {
    if os == [] then v
    else DoChange(DoCancelEach(v, os[..|os| - 1], reason), os[|os| - 1].terms.clOrdID, ForceCancel, reason).state
  }

  function DoCancelAll(v: VenueState, reason: string): VenueState {
    DoCancelEach(v, v.book.OpenDay(), reason)
  }

  function Holes(n: nat): seq<Slot> {
    seq(n, i => Hole)
  }

  /** `stored` is whether the engine's store could be read and written. */
  function DoAdvance(v: VenueState, kind: Kind, n: int, stored: bool): Outcome {
    if n <= 0 then Outcome(v, Some(CountNotPositive))
    else if kind !in v.logs then Outcome(v, Some(NoSession))
    else if !stored then Outcome(v, Some(StoreFailed))
    else Outcome(v.(logs := v.logs[kind := v.logs[kind] + Holes(n)]), None)
  }

  function Received(f: OrderFields): OrderState
    requires f.clOrdID.Some? && f.symbol.Some? && f.side.Some? && f.orderQty.Some? && f.ordType.Some?
  {
    OrderState(
      Terms(f.clOrdID.value,
            if f.account.Some? then f.account.value else "",
            f.symbol.value,
            f.side.value,
            f.ordType.value,
            if f.timeInForce.Some? then f.timeInForce.value else "",
            if f.price.Some? then f.price.value else 0.0,
            f.orderQty.value),
      "", 0.0, 0.0, New)
  }

  /** Why the venue refuses a NewOrderSingle before it reaches the book. */
  function Incomplete(f: OrderFields): Option<Rejection> {
    if f.clOrdID.None? then Some(MissingTag(11))
    else if f.symbol.None? then Some(MissingTag(55))
    else if f.side.None? then Some(MissingTag(54))
    else if f.orderQty.None? then Some(MissingTag(38))
    else if f.ordType.None? then Some(MissingTag(40))
    else None
  }

  datatype Reply = Reply(state: VenueState, rejection: Option<Rejection>)

  function DoNewOrder(v: VenueState, f: OrderFields): Reply {
    var missing := Incomplete(f);
    if missing.Some? then Reply(v, missing)
    else match v.book.Insert(Received(f))
      case Err(e) => Reply(v, Some(Refused(e)))
      case Ok(b) => Reply(Publish(v.(book := b), NewAck(b.orders[f.clOrdID.value])), None)
  }

  /** The reject policy: drop copy is read-only, a reject is never answered. */
  function DoFromApp(v: VenueState, kind: Kind, body: Body): Reply {
    if kind == DropCopy then Reply(v, Some(ReadOnlySession))
    else match body
      case NewOrderSingle(f) => DoNewOrder(v, f)
      case BusinessReject => Reply(v, None)
      case SessionReject => Reply(v, None)
      case NoMsgType => Reply(v, Some(MissingTag(35)))
      case ExecutionReport(_) => Reply(v, Some(Unsupported))
      case OtherType => Reply(v, Some(Unsupported))
  }

  function DoLogout(v: VenueState, kind: Kind, now: int): VenueState {
    var down := v.(loggedOn := v.loggedOn - {kind});
    if kind in v.cod && v.cod[kind].codType != COD_DISABLED
    then down.(timers := v.timers + [Timer(kind, now, v.cod[kind].codWindow)])
    else down
  }

  /** A Logon arms cancel-on-disconnect unless it is refused. */
  function DoLogonRequest(v: VenueState, kind: Kind, req: LogonRequest, passwordOk: bool): VenueState {
    if v.rejectLogons != "" || !passwordOk then v else v.(cod := v.cod[kind := req])
  }

  /** Timer `i` runs its callback; it never runs before its deadline. */
  predicate CanExpire(v: VenueState, i: nat, now: int) {
    i < |v.timers| && v.timers[i].Deadline() <= now
  }

  /** A session by its name in the shipped settings. */
  function SessionName(kind: Kind): string {
    match kind
    case OrderEntry => "FIX.4.4:FIXLABEX->OECLIENT"
    case DropCopy => "FIX.4.4:FIXLABEX->DCCLIENT"
  }

  /** Why a lost session's timer cancels. */
  function CodReason(kind: Kind): string {
    "cancel on disconnect (" + SessionName(kind) + ")"
  }

  function DoExpire(v: VenueState, i: nat, now: int): VenueState {
    if !CanExpire(v, i, now) then v else
      var fired := v.(timers := v.timers[..i] + v.timers[i + 1..]);
      if v.timers[i].kind in v.loggedOn then fired else DoCancelAll(fired, CodReason(v.timers[i].kind))
  }

  datatype Command =
    | Inbound(kind: Kind, body: Body)
    | Fill(id: string, px: real)
    | Partial(id: string, qty: real, px: real)
    | Cancel(id: string, reason: string)
    | Reject(id: string, reason: string)
    | CancelAll(reason: string)
    | SetSilenced(on: bool)
    | SetRejectLogons(text: string)
    | Advance(kind: Kind, n: int, stored: bool)
    | LogonRequested(kind: Kind, request: LogonRequest, passwordOk: bool)
    | LoggedOn(kind: Kind)
    | LoggedOut(kind: Kind, at: int)
    | Expire(timer: nat, at: int)

  function Step(v: VenueState, c: Command): VenueState {
    match c
    case Inbound(kind, body) => DoFromApp(v, kind, body).state
    case Fill(id, px) => DoFill(v, id, px).state
    case Partial(id, qty, px) => DoPartial(v, id, qty, px).state
    case Cancel(id, reason) => DoClose(v, id, Canceled, reason).state
    case Reject(id, reason) => DoClose(v, id, Rejected, reason).state
    case CancelAll(reason) => DoCancelAll(v, reason)
    case SetSilenced(on) => v.(silenced := on)
    case SetRejectLogons(text) => v.(rejectLogons := text)
    case Advance(kind, n, stored) => DoAdvance(v, kind, n, stored).state
    case LogonRequested(kind, request, ok) => DoLogonRequest(v, kind, request, ok)
    case LoggedOn(kind) => v.(loggedOn := v.loggedOn + {kind})
    case LoggedOut(kind, at) => DoLogout(v, kind, at)
    case Expire(i, at) => DoExpire(v, i, at)
  }
}
