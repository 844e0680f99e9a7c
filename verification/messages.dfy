/** Inbound messages as the applications see them: a type and the fields that can be missing. */
module Messages {
  import opened Orders

  /** The two acceptor sessions, one per role. */
  datatype Kind = OrderEntry | DropCopy

  /** NewOrderSingle (35=D): the tags the venue reads. */
  datatype OrderFields = OrderFields(
    clOrdID: Option<string>,
    symbol: Option<string>,
    side: Option<string>,
    orderQty: Option<real>,
    ordType: Option<string>,
    price: Option<real>,
    timeInForce: Option<string>,
    account: Option<string>)

  /** ExecutionReport (35=8): the tags the clients read. */
  datatype ReportFields = ReportFields(
    clOrdID: Option<string>,
    execType: Option<ExecType>,
    ordStatus: Option<Status>,
    cumQty: Option<real>,
    leavesQty: Option<real>,
    avgPx: Option<real>,
    execID: Option<string>,
    orderID: Option<string>)

  datatype Body =
    | NewOrderSingle(order: OrderFields)
    | ExecutionReport(fields: ReportFields)
    | BusinessReject
    | SessionReject
    | OtherType
    | NoMsgType

  datatype Message = Message(body: Body, possDup: bool)

  /** What an application returns to have a message rejected. */
  datatype Rejection =
    | MissingTag(tag: nat)
    | Unsupported
    | ReadOnlySession
    | Refused(error: Error)

  /** The fields a client finds in a report the venue built: all of them. */
  function FieldsOf(er: ExecReport): ReportFields {
    ReportFields(
      Some(er.clOrdID), Some(er.execType), Some(er.ordStatus), Some(er.cumQty),
      Some(er.leavesQty), Some(er.avgPx), Some(er.execID), Some(er.orderID))
  }
}
