/** One order, the changes the venue makes to it, and the execution report that describes it. */
module Orders {
  import opened Decimals

  /** OrdStatus (tag 39), in the source's order: 0, 1, 2, 4, 8. */
  datatype Status = New | PartiallyFilled | Filled | Canceled | Rejected

  /** ExecType (tag 150): 0, F, 4, 8. */
  datatype ExecType = ExecNew | ExecTrade | ExecCanceled | ExecRejected

  const TIF_DAY := "0"

  datatype Error =
    | UnknownClOrdID
    | DuplicateClOrdID
    | QtyNotPositive
    | CannotTrade(status: Status)
    | ExceedsLeaves
    | CannotClose(status: Status)
    | CountNotPositive
    | StoreFailed
    | NoSession

  datatype Result<T> = Ok(value: T) | Err(error: Error)

  /** What the client asked for: fixed from the moment the order is accepted. */
  datatype Terms = Terms(
    clOrdID: string,
    account: string,
    symbol: string,
    side: string,
    ordType: string,
    timeInForce: string,
    price: real,
    orderQty: real)

  /** The venue's view of one order. */
  datatype OrderState = OrderState(terms: Terms, orderID: string, cumQty: real, avgPx: real, status: Status)
  {
    predicate IsOpen() {
      status == New || status == PartiallyFilled
    }

    predicate IsDay() {
      terms.timeInForce == "" || terms.timeInForce == TIF_DAY
    }

    /** The quantity still working. */
    function LeavesQty(): real {
      if IsOpen() then terms.orderQty - cumQty else 0.0
    }

    /** The executed quantity stays within the order, and the status agrees with it. Nothing on
        entry asks for a positive OrderQty; an order without one simply never trades. */
    predicate Sound() {
      && 0.0 <= cumQty
      && (cumQty <= terms.orderQty || cumQty == 0.0)
      && (status == New ==> cumQty == 0.0)
      && (status == PartiallyFilled ==> 0.0 < cumQty < terms.orderQty)
      && (status == Filled ==> 0.0 < cumQty == terms.orderQty)
    }
  }

  /** The closures the venue hands to Book.Update. `ForceCancel` is the one of the mass cancel,
      which has no guard. */
  datatype Change = Trade(qty: real, px: real) | Close(to: Status) | ForceCancel

  /** The average price after a fill: that of everything executed so far, the new fill included. */
  function Averaged(avg: real, cum: real, qty: real, px: real): real {
    Div(avg * cum + px * qty, cum + qty)
  }

  function Apply(c: Change, o: OrderState): Result<OrderState> {
    match c
    case Trade(qty, px) =>
      if !o.IsOpen() then Err(CannotTrade(o.status))
      else if qty > o.LeavesQty() then Err(ExceedsLeaves)
      else
        var cum := o.cumQty + qty;
        Ok(o.(cumQty := cum,
              avgPx := Averaged(o.avgPx, o.cumQty, qty, px),
              status := if cum == o.terms.orderQty then Filled else PartiallyFilled))
    case Close(to) =>
      if !o.IsOpen() then Err(CannotClose(o.status)) else Ok(o.(status := to))
    case ForceCancel =>
      Ok(o.(status := Canceled))
  }

  /** The changes the venue's commands build: positive trades, cancels and rejects. */
  predicate Commanded(c: Change) {
    match c
    case Trade(qty, _) => qty > 0.0
    case Close(to) => to == Canceled || to == Rejected
    case ForceCancel => true
  }

  /** What every change keeps: soundness, the terms of the order, and the executed quantity, which
      only a trade moves, by exactly its own quantity. The leaves never grow, unless they were not
      positive to begin with. */
  lemma ApplyKeepsSound(c: Change, o: OrderState)
    requires o.Sound() && Commanded(c) && Apply(c, o).Ok?
    ensures var n := Apply(c, o).value;
      && n.Sound()
      && n.terms == o.terms && n.orderID == o.orderID
      && n.cumQty == o.cumQty + (if c.Trade? then c.qty else 0.0)
      && (n.LeavesQty() <= o.LeavesQty() || n.LeavesQty() == 0.0)
      && (o.IsOpen() ==> n.LeavesQty() == (if c.Trade? then o.LeavesQty() - c.qty else 0.0))
  {
  }

  /** The average price is divided by a positive quantity. */
  lemma TradeDividesByPositive(qty: real, px: real, o: OrderState)
    requires o.Sound() && Commanded(Trade(qty, px)) && Apply(Trade(qty, px), o).Ok?
    ensures o.cumQty + qty > 0.0
  {
  }

  /** Trading everything an order had left fills it; trading more than it has is refused. */
  lemma TradingTheLeavesFills(qty: real, px: real, o: OrderState)
    requires o.Sound() && qty > 0.0 && o.LeavesQty() <= qty
    ensures Apply(Trade(qty, px), o).Ok? <==> o.IsOpen() && o.LeavesQty() == qty
    ensures Apply(Trade(qty, px), o).Ok? ==>
      var n := Apply(Trade(qty, px), o).value; n.status == Filled && n.cumQty == n.terms.orderQty
  {
  }

  /** What publish is given; the order is a copy taken under the book's lock. */
  datatype Report = Report(
    order: OrderState,
    execType: ExecType,
    lastQty: real,
    lastPx: real,
    text: string,
    restatement: int,
    execID: string)

  const RESTATEMENT_COD := 100

  function NewAck(o: OrderState): Report {
    Report(o, ExecNew, 0.0, 0.0, "", 0, "")
  }

  /** The report of a change that has just been made to `o`. */
  function Describe(c: Change, o: OrderState, reason: string): Report {
    match c
    case Trade(qty, px) => Report(o, ExecTrade, qty, px, "", 0, "")
    case Close(to) => Report(o, if to == Rejected then ExecRejected else ExecCanceled, 0.0, 0.0, reason, 0, "")
    case ForceCancel => Report(o, ExecCanceled, 0.0, 0.0, reason, RESTATEMENT_COD, "")
  }

  /** A field the venue may leave out. */
  datatype Option<+T> = None | Some(value: T)

  /** The execution report as it goes on the wire. TransactTime (60) is the clock's and is left out. */
  datatype ExecReport = ExecReport(
    orderID: string,
    execID: string,
    execType: ExecType,
    ordStatus: Status,
    side: string,
    leavesQty: real,
    cumQty: real,
    avgPx: real,
    clOrdID: string,
    symbol: string,
    orderQty: real,
    price: Option<real>,
    account: Option<string>,
    lastQty: Option<real>,
    lastPx: Option<real>,
    text: Option<string>,
    restatement: Option<int>)

  function Build(r: Report): ExecReport {
    var o := r.order;
    ExecReport(
      o.orderID,
      r.execID,
      r.execType,
      o.status,
      o.terms.side,
      Round(o.LeavesQty(), QTY_SCALE),
      Round(o.cumQty, QTY_SCALE),
      Round(o.avgPx, PX_SCALE),
      o.terms.clOrdID,
      o.terms.symbol,
      Round(o.terms.orderQty, QTY_SCALE),
      if o.terms.price == 0.0 then None else Some(Round(o.terms.price, PX_SCALE)),
      if o.terms.account == "" then None else Some(o.terms.account),
      if r.execType.ExecTrade? then Some(Round(r.lastQty, QTY_SCALE)) else None,
      if r.execType.ExecTrade? then Some(Round(r.lastPx, PX_SCALE)) else None,
      if r.text == "" then None else Some(r.text),
      if r.restatement == 0 then None else Some(r.restatement))
  }
}
