# fix-session-lab, verified

A Dafny model of the FIX 4.4 session lab: the venue (`internal/exchange`), its two consumers
(`internal/client`), the watchdog and supervisor (`internal/session`) and the redacting wire log
(`internal/fixlog`). `dafny verify dfyconfig.toml` checks everything.

## What is modelled

The venue keeps an order book, obeys commands (orders from the wire, fills, cancels, rejects, a mass
cancel, cancel-on-disconnect timers, silence, skipped sequence numbers) and publishes every event as an
execution report, under one ExecID, to two sessions. The order-entry client assigns what it is told; the
drop copy records each ExecID once. There are two layers.

**Serialized.** Each command runs to its end. The classes `Books.Order`, `Books.Book`, `Exchange.App`,
`Clients.OrderEntryClient`, `Clients.DropCopyClient`, `Watchdogs.Watchdog`, `Watchdogs.Client`,
`Supervisors.Initiator` and `Supervisors.Supervisor` have the fields the source updates in place, the book
with its map and slice sharing order objects; each method is proved to do what a function on values says,
and the theorems about whole runs are proved about those functions. The redacting walker is a loop proved
against split, mask and join.

**Lock-granular.** `Interleaving` takes one lock section, or one send on one session, at a time, with any
number of commands in flight; HTTP handlers, the session goroutine and timers are all threads. What holds
whatever the order is proved here (`Concurrent`, `Wholes`, `FillStory`); and where the order matters,
exactly when (`Overtaking`, `Races`, `Crossings`, `Acknowledgements`, `TimerRaces`). A command that is not
interrupted does here what it does in the serialized layer, and every serialized run is one of these
(`Uninterrupted`).

`Channel` puts both clients behind the FIX engine, with the venue in either layer.

| file | subject |
|---|---|
| decimals, orders, messages, identifiers | rounding, order states and reports, message fields, printed ids |
| avgpx | drift and range of the running average price |
| book, venue, exchange | the book, the venue on values, the venue class |
| runs, reachable, masscancel, wire | serialized runs: histories, the order state matrix, the mass cancel, report fields |
| outcomes | every command in the order's own fields: when it succeeds, and all it changes |
| cod | cancel-on-disconnect over timed runs |
| provenance | an order's terms from acceptance to its last report; what a lost session takes, and says |
| clients, recovery, exactlyonce | the consumers, and what they make of a log and its replays |
| channel | venue, engine and both clients together, in both layers |
| interleaving, concurrent, wholes, fillstory | every interleaving of lock sections |
| uninterrupted | the serialized layer as a part of the lock-granular one |
| effects, draining | one step at a time; threads seen to their ends |
| overtaking, races | when the last report is the order as booked, and when it falls behind |
| crossing | when the two sessions end with the same report, and when they end apart |
| acks, timers | the late copy of the acknowledgement; a timer against a reconnect |
| rejects | two applications that reject each other's messages |
| watchdog, supervisor, redact | the client's session machinery and the log filter |

## Reading the model

- The FIX engine is a channel: per session an append-only log, in which admin messages and skipped numbers
  are holes; in-order delivery; any suffix can be sent again marked PossDup (FIX 4.4 Volume 2, Message
  Recovery; docs/drills/07-gap-and-resend.md:45-75).
- A session is its role: one order-entry session, one drop-copy session.
- Quantities and prices are reals. Division is rounded to sixteen places, halves away from zero, which is
  the decimal library's default; on the wire quantities are rounded to whole numbers and prices to cents.
- Closures handed to Book.Update are the datatype `Change`.
- A missing or unreadable field is `None`; an inbound message is its type and the fields that are read.
- Clocks are parameters. A timer never runs before its deadline, and may run any time after it. Lock by
  lock there is no clock: a timer is a thread that an armed logout starts and that waits as long as it likes.
- `issued` is history: every report ever published, those dropped by silence included.
- OrderQty is not required to be positive, as on entry nothing asks for it (reports.go:142-159); an order
  without a positive quantity never trades.
- The source's Go `int` is wrapped to 64 bits where it can matter, in the tag parse of the log filter.
  Counters (OrderIDs, ExecIDs, ClOrdIDs, fired, starts) do not wrap.

## Where the code and its own words differ

- exchange.go:283-287 says that both never-reject-a-reject guards are needed. Either alone is enough
  (`Rejects.StormFreeExactlyWhen`).
- docs/drills/10-cancel-on-disconnect.md:92-94 says that cancel-on-disconnect does nothing on a drop-copy
  session. It cancels every working day order, even with the order-entry session up
  (`CancelOnDisconnect.DropCopyLossTakesOrders`; exactly when, `FiringSparesOrdersExactlyWhen`).
- reports.go:183-185 says that a client which reconnects inside the window keeps its orders. While it stays
  connected its own timers take nothing (`ReconnectStandsDown`), but another session's can: an order that is
  otherwise left alone keeps working exactly when no timer of another session finds that session down
  (`ReturnKeepsOrderExactlyWhen`; for any stretch of a run, `WorksOnExactlyWhen`). And timers are never
  cancelled, so after a reconnect and a second drop an earlier timer takes the orders before their window
  is over (`FlappingLosesOrders`).
- book.go:100-102 says that updates are serialized against the fanout that reports them. The report is
  numbered and sent after the lock is released, so reports can overtake each other: with nothing in flight
  and nothing dropped the last report on both sessions can be older than the book
  (`Races.LastReportCanBeStale`). It happens exactly when an order changes while another thread still has
  an older report about it to send (`Races.OvertakenExactlyWhen`; both halves,
  `Overtaking.LastReportIsCurrent` and `Races.OverlapCanEndStale`).
- oe.go:85-88 reconciles the two clients' views by the last ExecID. Under interleaving the two sessions can
  end with different reports last (`Races.SessionsCanDisagree`), and the clients then do not reconcile, with
  nothing in flight and nothing left to take. It happens exactly when a report about an order goes out on
  the order-entry session while another thread is between its two sends of one
  (`Crossings.SessionsEndApartExactlyWhen`, `Channel.ClientsEndAtOddsExactlyWhen`).
- The acknowledgement is read after the order is in the book, so it can show an order already executed
  (`Acknowledgements.AckCanShowAFill`; exactly when it differs, `AckIsUntouchedExactlyWhen`).
- reports.go:190-199 reads whether the session is back before it takes the snapshot. A session that comes
  back in between is up while its orders go, those entered since included
  (`TimerRaces.ReturnedSessionLosesLateOrder`; exactly when, `CancelsWithSessionUpExactlyWhen` and
  `SnapshotTakesWhatWorks`).
- "Terminal is final" holds in serialized runs. The mass cancel has no guard of its own, so a fill between
  its snapshot and its turn is overwritten (`FillStory.FilledCanBecomeCanceled`; exactly when,
  `TerminalChangesExactlyWhen`).
- Prefixes do not by themselves keep ClOrdIDs of two clients apart: they do unless one prefix continues
  the other with digits (`Identifiers.PrefixesCollideExactlyWhen`).
- On the wire CumQty, LeavesQty and OrderQty are rounded one by one. On a working order's report they add
  up exactly when the fractions of the executed and the open quantity do not round apart
  (`Wire.ReportAddsUpExactlyWhen`): for a whole order quantity, when the executed quantity does not end in a
  half (`WholeOrderAddsUpExactlyWhen`); for all order quantities at once, when it is whole
  (`WireQuantitiesAddUpExactlyWhen`).

## Model

| member | source | states |
|---|---|---|
| Decimals.HalvesGoAway | internal/exchange/reports.go:89-93 | rounding takes halves away from zero on either side |
| Decimals.SixteenPlaces | internal/exchange/commands.go:43 | a division keeps sixteen places, the last one rounded |
| Orders.ApplyKeepsSound | internal/exchange/commands.go:31-51 | every change keeps 0 <= CumQty <= OrderQty and the status in step with it, moves CumQty by exactly the traded quantity, and never lets the leaves grow |
| Orders.TradeDividesByPositive | internal/exchange/commands.go:41-43 | no accepted trade divides by zero |
| Orders.TradingTheLeavesFills | internal/exchange/commands.go:17-51 | trading at least the leaves succeeds exactly on an open order whose leaves it equals, and then fills it whole |
| AveragePrice.TradeAllAverages | internal/exchange/commands.go:39-51 | after any accepted fills of a new order, CumQty is their volume and AvgPx the running average |
| AveragePrice.AvgPxErrorBound | internal/exchange/commands.go:39-43 | after n fills AvgPx is within n half-units in the sixteenth place of the true quantity-weighted mean |
| AveragePrice.WireAvgPxErrorBound | internal/exchange/reports.go:93 | tag 6 is within that and half a cent of the true mean |
| AveragePrice.ExactDivisionHasNoDrift | internal/exchange/commands.go:41-43 | when no division had to be rounded, AvgPx times CumQty is the sum of quantity times price |
| AveragePrice.AvgPxStaysInRange | internal/exchange/commands.go:41-43 | AvgPx stays between the rounded lowest and highest fill price, rounding at every step |
| AveragePrice.AvgPxStaysInExactRange | internal/exchange/commands.go:41-43 | it stays inside the very same range, for all fills, exactly when rounding pushes neither end outwards |
| Identifiers.Pad6ReadsBack | internal/exchange/book.go:80 | a printed counter reads back as its number, also past six digits |
| Identifiers.IdsReadBack | internal/exchange/book.go:80-151 | EXE, ORD, and CL with the client's prefix stand before at least six digits that read back as the counter |
| Identifiers.VenueIdsInjective | internal/exchange/book.go:150-151 | ExecIDs and OrderIDs are distinct for distinct counters, and from each other |
| Identifiers.ClOrdIdInjective | internal/client/oe.go:213-217 | ClOrdIDs with prefixes of equal length name one prefix and one counter |
| Identifiers.PrefixesCollideExactlyWhen | internal/client/oe.go:213-217 | two prefixes can print the same ClOrdID exactly when one continues the other with digits not starting with zero |
| Books.UpdateKeepsBook | internal/exchange/book.go:100-115 | an update keeps keys, insertion order, OrderIDs and every other order |
| Books.InsertKeepsBook | internal/exchange/book.go:69-86 | an insert appends one order and leaves all others as they were |
| Books.IdsAreDistinct | internal/exchange/book.go:71-86 | no ClOrdID is listed twice |
| Books.OrderIdsAreDistinct | internal/exchange/book.go:79-80 | an OrderID belongs to one order only |
| Books.OpenDayIsTheFilter | internal/exchange/book.go:117-130 | the open day orders are exactly the working day orders, each once, in insertion order |
| Books.Order.Accept | internal/exchange/book.go:79-81 | a newcomer gets its OrderID and status New and keeps everything else |
| Books.Order.Mutate | internal/exchange/commands.go:31-51 | the closures' field updates in place, and none of them on an error, are the change on values |
| Books.Book.ObjectsAreDistinct | internal/exchange/book.go:57-63 | the slice holds no object twice |
| Books.Book.ValidIsWellKept | internal/exchange/book.go:57-63 | map and slice sharing objects are a well-kept insertion-ordered book |
| Books.Book.Insert | internal/exchange/book.go:71-86 | the heap book becomes the abstract insert; a duplicate changes nothing, the newcomer included |
| Books.Book.Get | internal/exchange/book.go:89-98 | a copy of the order, or none |
| Books.Book.Update | internal/exchange/book.go:103-115 | changing one shared object is one abstract map update; an error changes nothing |
| Books.Book.OpenDayOrders | internal/exchange/book.go:119-130 | the loop over the slice returns the abstract list of open day orders |
| Books.Book.All | internal/exchange/book.go:133-142 | every order in insertion order |
| Books.Book.NextExecID | internal/exchange/book.go:146-152 | the counter moves by one and names the new ExecID, and no order changes |
| Exchange.App.Publish | internal/exchange/reports.go:41-73 | every publish takes an ExecID; unless silenced, every configured session's log gains its copy, connected or not |
| Exchange.App.Change | internal/exchange/commands.go:66-80 | update, then report: an error leaves everything as it was |
| Exchange.App.Partial | internal/exchange/commands.go:26-63 | a quantity not positive is refused, otherwise the trade is made and reported |
| Exchange.App.Fill | internal/exchange/commands.go:17-23 | an unknown order is refused, otherwise the order's leaves are traded |
| Exchange.App.Cancel | internal/exchange/commands.go:66-80 | an open order is canceled and reported, any other is refused |
| Exchange.App.Reject | internal/exchange/commands.go:83-97 | an open order is rejected and reported, any other is refused |
| Exchange.App.CancelAllOpenDay | internal/exchange/reports.go:206-228 | the snapshot loop is the mass cancel on values, and returns the size of the snapshot |
| Exchange.App.AdvanceSeqNum | internal/exchange/commands.go:139-161 | a count not positive, a missing session or a failing store is an error that changes nothing, otherwise that session's log gains holes, and the number returned is the next one its log will take |
| Exchange.App.OnNewOrderSingle | internal/exchange/reports.go:127-179 | the first missing required tag refuses the order, a duplicate is refused, any other is booked and acknowledged |
| Exchange.App.FromApp | internal/exchange/exchange.go:262-295 | the reject policy: drop copy is read-only, rejects are never answered, unknown types are |
| Exchange.App.OnLogon | internal/exchange/exchange.go:188-193 | the session counts as connected |
| Exchange.App.OnLogout | internal/exchange/exchange.go:195-206 | the session counts as lost, and exactly an armed one starts a timer |
| Exchange.App.FromAdminLogon | internal/exchange/exchange.go:232-251 | only an accepted Logon arms or disarms the session |
| Exchange.App.TimerExpired | internal/exchange/reports.go:190-200 | the callback cancels the open day orders, for a reason that names the session, unless the session is back |
| Outcomes.FillExactlyWhen | internal/exchange/commands.go:17-23 | succeeds exactly on a known New or PartiallyFilled order with something left; trades all of that at the price given, in one report, and leaves the order Filled; any other is an error that changes nothing |
| Outcomes.PartialExactlyWhen | internal/exchange/commands.go:26-63 | succeeds exactly for a positive quantity of no more than a New or PartiallyFilled order has left; trades that quantity at that price; which error otherwise |
| Outcomes.CloseExactlyWhen | internal/exchange/commands.go:66-97 | a cancel or reject succeeds exactly on a New or PartiallyFilled order, moves the status alone and says why |
| Outcomes.NewOrderExactlyWhen | internal/exchange/reports.go:127-179 | an order is accepted exactly when tags 11, 55, 54, 38 and 40 are there and its ClOrdID is new; every field is booked as sent or by its default; a refusal names the first missing tag |
| Outcomes.FromAppExactlyWhen | internal/exchange/exchange.go:262-295 | what is acted upon, what is passed over and what is answered, and how |
| Outcomes.CancelAllExactlyWhen | internal/exchange/book.go:40-49 | the mass cancel strikes an order exactly when it is New or PartiallyFilled and its TimeInForce is missing or 0 |
| Outcomes.CancelAllSays | internal/exchange/reports.go:206-228 | each report of it shows one order it struck, with restatement reason 100 and the reason given; each order it struck has exactly one |
| Wire.AcceptanceIsEchoed | internal/exchange/reports.go:127-179 | the acknowledgement on every session carries the client's own fields, the next OrderID and ExecID, and nothing executed |
| Wire.TradeIsAnnounced | internal/exchange/commands.go:26-63 | a trade's report carries its own quantity and price, the new total and the new leaves |
| Wire.CloseIsAnnounced | internal/exchange/commands.go:66-97 | a cancel's or reject's report carries the reason, zero leaves and the untouched executed part |
| Wire.NoticeOnTheWire | internal/exchange/reports.go:216-221 | the mass cancel's report is a cancel with restatement reason 100 and zero leaves |
| Wire.AdvanceOnlyMakesHoles | internal/exchange/commands.go:139-161 | skipping n numbers adds n holes to one session and carries nothing |
| Wire.PartsAddUpExactlyWhen | internal/exchange/reports.go:91-102 | two rounded quantities add up to their rounded sum exactly when their fractions do not round apart |
| Wire.ReportAddsUpExactlyWhen | internal/exchange/reports.go:82-102 | on a working order's report tags 14 and 151 add up to 38 exactly when the fractions of the executed and the open quantity do not round apart |
| Wire.WholeOrderAddsUpExactlyWhen | internal/exchange/reports.go:82-102 | for a whole order quantity, exactly when the executed quantity does not end in a half |
| Wire.WireQuantitiesAddUpExactlyWhen | internal/exchange/reports.go:91-102 | they add up for every order quantity at once exactly when the executed quantity is whole |
| Wire.ReportsAddUp | internal/exchange/reports.go:82-102 | so they do in every report of a working order with a whole executed quantity |
| Runs.PublishKeepsInv | internal/exchange/reports.go:41-73 | publishing a legal next report keeps book, histories and logs in agreement |
| Runs.ChangeKeepsInv | internal/exchange/commands.go:26-97 | so does every commanded change |
| Runs.NewOrderKeepsInv | internal/exchange/reports.go:127-179 | so does every inbound order |
| Reachable.StepKeepsInv | internal/exchange/commands.go:17-161 | every command keeps the invariant of serialized runs |
| Reachable.ExecIdsNeverRepeat | internal/exchange/book.go:144-152 | in every serialized run an ExecID belongs to one event |
| Reachable.FanoutAgrees | internal/exchange/reports.go:46-72 | in every serialized run all sessions carry the same reports in the same order, holes aside |
| Reachable.ReportLanguage | internal/exchange/commands.go:26-97 | each order's reports obey the order state matrix of FIX 4.4 Volume 4 Appendix D: one New, trades that grow, at most one end, nothing after; the last is the order as booked |
| Reachable.ChainsConserve | internal/exchange/commands.go:39-51 | an order's quantity and average are those of the fills its reports announced |
| Reachable.ReportedFillsAreTheOrder | internal/exchange/commands.go:31-61 | in every serialized run the announced LastQty sum to CumQty, and AvgPx is within the rounding bound of their mean |
| MassCancel.CancelAllOpenDay | internal/exchange/reports.go:203-213 | exactly the working day orders become Canceled, and all else about every order stays |
| MassCancel.CancelAllReports | internal/exchange/reports.go:206-228 | each cancelled order is reported once, in insertion order, with consecutive ExecIDs, on every session unless silenced; nothing else in the venue moves |
| MassCancel.SecondCancelIsIdle | internal/exchange/reports.go:206-228 | a second mass cancel finds nothing and changes nothing |
| Provenance.StepKeepsTerms | internal/exchange/commands.go:26-97 | no command changes what an order was asked for, or its OrderID, or forgets it |
| Provenance.SameTermsSameTags | internal/exchange/reports.go:82-108 | reports of one order carry the same price, account, symbol, side, quantity and names, whatever happened to it |
| Provenance.HistoryKeepsTerms | internal/exchange/reports.go:82-108 | every report in an order's history shows the order as it was asked for |
| Provenance.ReportsCarryWhatWasAsked | internal/exchange/reports.go:99-108 | from acceptance to the end of any serialized run, every report about an order carries the price, account, symbol, side and quantity its sender gave |
| Provenance.FiringTakesExactlyWhen | internal/exchange/book.go:44-49 | a firing takes a working order exactly when it was sent with TimeInForce missing, empty or 0; one sent good-till survives |
| Provenance.FiringSaysWhy | internal/exchange/reports.go:199-221 | every report of a firing names the lost session in its text and carries restatement reason 100 |
| Provenance.OwnOrdersAreAccepted | internal/client/oe.go:213-241 | what the order-entry client sends is accepted exactly when the ClOrdID is new, and is a limit order for the day as asked; no counter of the client stands in the way of another |
| CancelOnDisconnect.SessionStep | internal/exchange/exchange.go:188-206 | who is connected, armed and timed, silence and the refusal of Logons change by the handlers and switches for them only, and exactly so |
| CancelOnDisconnect.TimersHaveStarts | internal/exchange/reports.go:186-190 | every pending timer was started by a logout of an armed session |
| CancelOnDisconnect.ArmedByTheLastLogon | internal/exchange/exchange.go:249-251 | a session's request is that of the last Logon accepted on it |
| CancelOnDisconnect.DownExactlyWhen | internal/exchange/reports.go:190-199 | a session was down ever since a logout exactly when it never came back |
| CancelOnDisconnect.DownIfNoOtherLogout | internal/exchange/reports.go:190-199 | a session found down, with no other logout since, was down all along |
| CancelOnDisconnect.FiringHasACause | internal/exchange/reports.go:186-200 | every mass cancel by a timer goes back to the armed logout that started that timer, at least one window before, the session being down, and down all along if it was not logged out again |
| CancelOnDisconnect.StepNeverRevives | internal/exchange/commands.go:26-97 | no command brings a finished order back to work |
| CancelOnDisconnect.FiringClears | internal/exchange/reports.go:190-200 | a firing on a lost session cancels exactly the working day orders and leaves none |
| CancelOnDisconnect.OutageClearsTheBook | internal/exchange/reports.go:186-228 | once the timer of an unbroken outage has run, the mass cancel was made, a window or more after the logout |
| CancelOnDisconnect.ClearedForGood | internal/exchange/reports.go:206-213 | a day order that works after a mass cancel by timer came in after it |
| CancelOnDisconnect.ReconnectStandsDown | internal/exchange/reports.go:190-198 | the timers of a session that is back and stays back do nothing |
| CancelOnDisconnect.WorksThroughExactlyWhen | internal/exchange/reports.go:190-200 | an event that concerns a working day order by a timer alone leaves it working exactly when the timer, if due, finds its session up |
| CancelOnDisconnect.WorksOnExactlyWhen | internal/exchange/reports.go:183-200 | over any stretch in which nothing but timers concerns a working day order, it works on exactly when every due timer finds its session up |
| CancelOnDisconnect.ReturnKeepsOrderExactlyWhen | internal/exchange/reports.go:183-200 | after a reconnect that lasts, such an order works on exactly when no timer of another session finds that session down |
| CancelOnDisconnect.FiringSparesOrdersExactlyWhen | internal/exchange/reports.go:190-200 | a due timer leaves all orders alone exactly when its session is back or nothing works, whichever session it is |
| CancelOnDisconnect.FlappingLosesOrders | internal/exchange/reports.go:186-200 | any window and any second drop inside it: the order goes less than a window after that drop |
| CancelOnDisconnect.DropCopyLossTakesOrders | internal/exchange/reports.go:186-200 | an armed drop copy that is lost takes the orders of the order-entry session that is up |
| Clients.OeReadsExactlyWhen | internal/client/oe.go:136-164 | a report is taken exactly when it has tags 11, 150, 39, 14, 151, 6 and 17, and otherwise answered for the first it lacks |
| Clients.OeAnswersExactlyWhen | internal/client/oe.go:101-134 | readable reports and business rejects go unanswered, all else is answered |
| Clients.DcReadsExactlyWhen | internal/client/dc.go:65-83 | the drop copy takes a report exactly when it has tags 17, 150, 39 and 37 |
| Clients.DcAnswersExactlyWhen | internal/client/dc.go:47-83 | and answers only messages without a type and reports it cannot read |
| Clients.OrderEntryClient.FromApp | internal/client/oe.go:101-134 | a report is taken, a business reject is not answered, anything else is; every watchdog hears of it |
| Clients.OrderEntryClient.OnExecutionReport | internal/client/oe.go:136-194 | the first missing tag is refused with nothing changed, otherwise the view is assigned and replays are counted |
| Clients.OrderEntryClient.Send | internal/client/oe.go:213-232 | the counter moves by one and names the new ClOrdID, and the message is a limit order for the day |
| Clients.DropCopyClient.FromApp | internal/client/dc.go:47-63 | reports are recorded, everything else is ignored unanswered |
| Clients.DropCopyClient.OnExecutionReport | internal/client/dc.go:65-113 | the first missing tag is refused with nothing changed, a known ExecID is counted, a new one recorded |
| Clients.RecordsFirstOccurrences | internal/client/dc.go:90-112 | under any deliveries the recorded reports are the first occurrences in arrival order, each with its fields and whether it came as a replay, and reports plus duplicates are all deliveries |
| Clients.UnreadableLeavesNoTrace | internal/client/dc.go:65-81 | deliveries with a field missing might as well not have arrived |
| Recovery.TakingAssigns | internal/client/oe.go:166-188 | taking a stretch of the log assigns the last report about each order and counts replays |
| Recovery.ResendMerges | internal/client/oe.go:166-188 | a suffix taken again over what was taken gives the view of the union of the stretches |
| Recovery.StepAppends | internal/exchange/reports.go:41-73 | session logs only grow |
| ExactlyOnce.DeliveredIsFresh | internal/exchange/book.go:144-152 | each report on a session carries an ExecID none before it does |
| ExactlyOnce.TakeStretch | internal/client/dc.go:90-112 | a replay that overlaps what was taken records only the rest and counts the overlap as duplicates |
| Channel.SourceGrows | internal/exchange/reports.go:41-73 | in both layers everything that can happen at the venue keeps its invariant and only extends the session logs |
| Channel.LogIsFresh | internal/exchange/book.go:144-152 | in both layers each report on a session carries an ExecID none before it does |
| Channel.AfterKeepsInv | internal/client/oe.go:136-194 | after any event at the venue, delivery, replay or rebuild the order-entry client's orders are the view of the stretch it has taken, and the drop copy's records are the log up to where it has come |
| Channel.RecoveryEqualsNoInterruption | docs/drills/07-gap-and-resend.md:45-75 | clients that took the same stretch agree, whatever interruptions and replays each went through |
| Channel.ReplayIsIdempotent | internal/client/oe.go:160-188 | replaying any suffix to an up-to-date client changes the replay count and nothing else |
| Channel.ClientKnowsItsStretch | internal/client/oe.go:166-188 | a client, fresh or not, knows exactly the orders reported in the stretch it has taken |
| Channel.DropCopyRecordsExactlyOnce | internal/client/dc.go:65-113 | after any run in either layer, with any replays, the drop copy holds each report that reached it once, in order |
| Channel.DropCopyNeverRepeats | internal/client/dc.go:90-102 | and no ExecID twice |
| Channel.RecordsSayHowTheyCame | internal/client/dc.go:85-107 | records are never changed, and are marked as replayed exactly when a resend brought them first |
| Channel.UpToDateShowsLast | internal/client/oe.go:166-188 | an up-to-date client shows of each order it knows the last report on its session |
| Channel.ViewsReconcile | internal/client/oe.go:85-88 | in serialized runs, both clients up to date, the ExecID and status last seen of an order are those of the drop copy's last record about it |
| Channel.ViewEqualsBookExactlyWhen | internal/exchange/reports.go:46-72 | in serialized runs an up-to-date client shows an order as the book has it exactly when the order's last report was not silenced |
| Channel.UpToDateDropCopyHasAll | internal/exchange/reports.go:46-72 | in serialized runs an up-to-date drop copy holds every published report that was not silenced, in publishing order |
| Channel.DropCopyHasAllUnderInterleaving | internal/client/dc.go:65-113 | under every interleaving, with nothing in flight, an up-to-date drop copy holds every numbered report that was not dropped, and no other |
| Channel.ViewEqualsBookWithoutOverlap | internal/exchange/reports.go:46-72 | under every interleaving without an overlap on the order, nothing in flight and nothing about it dropped, an up-to-date client shows it as booked |
| Channel.OvertakenViewIsBehind | internal/client/oe.go:166-188 | if its last report was overtaken, an up-to-date client shows the order in an earlier state than booked |
| Channel.ReconcilesExactlyWhen | internal/client/oe.go:85-88 | under every interleaving the two up-to-date clients reconcile on an order exactly when the sessions end with the same report about it |
| Channel.ReconcilesWithoutCrossing | internal/client/oe.go:85-88 | in a run without a crossing on the order they never end at odds about it |
| Channel.ApartEndsAtOdds | internal/client/oe.go:85-88 | when the sessions end apart, clients that ask for everything again still end at odds |
| Channel.ClientsEndAtOddsExactlyWhen | internal/client/oe.go:85-88 | whatever the way the venue is used, the clients can end at odds about an order, nothing in flight or left to take, exactly when some run has a crossing on it |
| Uninterrupted.AloneEnds | internal/exchange/commands.go:26-97 | however many steps a thread makes alone, once it is done the venue is in one and the same state |
| Uninterrupted.CommandAlone | internal/exchange/commands.go:17-97 | a command carried out without interruption does to book, numbered and dropped reports and both logs what the serialized layer says, and gives the same answer |
| Uninterrupted.CommandIsMoves | internal/exchange/exchange.go:188-271 | from matching states every command, timers and session events included, is some moves of the lock-granular venue to matching states |
| Uninterrupted.SerializedRunIsInterleaving | internal/exchange/reports.go:41-73 | every serialized run is an interleaving that ends with the same book, flags, reports, drops and logs, nothing in flight but one waiting thread for each pending timer |
| Interleaving.RunKeepsBookInv | internal/exchange/book.go:103-115 | every lock section keeps the book sound, and a pending fill at least as large as the leaves |
| Interleaving.RunKeepsLogLaw | internal/exchange/reports.go:41-73 | under any weighing of reports, each log plus what is in flight and dropped balances with what was numbered |
| Interleaving.RunKeepsTrades | internal/exchange/commands.go:31-61 | executed quantity balances with announced and about to be announced trades, and AvgPx with the fills in update order |
| Interleaving.AfterKeepsInv | internal/exchange/reports.go:41-73 | every move of every thread keeps the invariant |
| Concurrent.TradedQuantityIsConserved | internal/exchange/commands.go:31-61 | under every interleaving, for each order and session, logged, in-flight, dropped and unnumbered traded quantity is exactly what is executed |
| Concurrent.ExecutedStaysInBounds | internal/exchange/commands.go:31-36 | under every interleaving that is between nothing and OrderQty |
| Concurrent.QuietLogsSumToTheBook | internal/exchange/reports.go:46-72 | with nothing in flight and nothing dropped both logs sum to the book |
| Concurrent.WholeQuantitiesSurviveTheWire | internal/exchange/reports.go:110-113 | a log of whole trades has the same sum in tag 32 as built |
| Wholes.MoveStaysWhole | internal/exchange/commands.go:17-51 | whole quantities in, whole quantities kept: no lock section makes a fraction |
| Wholes.WireLosesNothing | internal/exchange/reports.go:110-113 | if the order and partial quantities that come in are whole, then under every interleaving and at every moment each log has the same sum in tag 32 as announced |
| Wholes.WireFillsSumToCumQty | internal/exchange/reports.go:91-113 | and at rest, nothing dropped, tag 32 sums on each session to tag 14 of the order as booked |
| Wholes.EveryReportAddsUp | internal/exchange/reports.go:91-102 | and on every report of a working order that either session carries, 14 and 151 add up to 38 |
| Concurrent.AvgPxUnderInterleaving | internal/exchange/commands.go:39-43 | the error bound of AvgPx holds under every interleaving, of the fills in the order of their updates |
| Concurrent.AvgPxRangeUnderInterleaving | internal/exchange/commands.go:41-43 | so does its price range |
| Concurrent.ExecIdsNeverRepeat | internal/exchange/book.go:144-152 | under every interleaving no log carries an ExecID twice |
| Concurrent.SessionsAgreePerExecId | internal/exchange/reports.go:46-72 | under every interleaving the same ExecID on both sessions is the same report |
| Concurrent.QuietLogsArePermutations | internal/exchange/reports.go:67-72 | with nothing in flight the logs hold the same reports, all that were numbered less those dropped |
| Overtaking.LastReportIsCurrent | internal/exchange/reports.go:46-72 | under every interleaving in which no order changes while another thread has an older report about it to send to a session, once nothing is in flight and no report about the order was dropped, the last report about it on that session is the order as booked |
| Races.OverlapCanEndStale | internal/exchange/reports.go:46-72 | from any reached state in which an order does so change, the run can end, with no new command and no more silence, with that session's last report about it older than the booked one before it |
| Races.NothingIsOvertaken | internal/exchange/reports.go:46-72 | without such an overlap no report is ever overtaken, silenced or not |
| Races.OvertakenExactlyWhen | internal/exchange/book.go:100-115 | whatever the way the venue is used, some run ends with a session behind the book in this way exactly when some run has such an overlap |
| Races.ReachedLogSound | internal/exchange/reports.go:41-73 | under every interleaving, what a session has been sent about an order is a state that order is in or was in, with its own terms and OrderID, and orders never go back to one |
| Races.LastReportCanBeStale | internal/exchange/reports.go:46-72 | any order and any two partial fills: acknowledged, nothing in flight, nothing dropped, and on both sessions the second fill's report before the first's |
| Races.SessionsCanDisagree | internal/exchange/reports.go:67-72 | the same two fills, with the last report on one session the order as booked and on the other an older one |
| Effects.StepMovesForward | internal/exchange/commands.go:31-97 | no lock section of any thread takes an order back to an earlier state, or away |
| Crossings.StepStaysInStep | internal/exchange/reports.go:67-72 | at most one thread is between its two sends about an order, with the first session's last report about it, and otherwise the sessions' last reports are the same, as long as no step crosses |
| Crossings.SessionsEndAlike | internal/exchange/reports.go:67-72 | over all runs, silenced or not: without a crossing on an order, nothing in flight, the two sessions have the same last report about it |
| Crossings.SnapshotNamesOnce | internal/exchange/reports.go:206-213 | a mass cancel's snapshot names no order twice |
| Crossings.HeldOnce | internal/exchange/book.go:144-152 | no two threads hold reports under one ExecID |
| Crossings.CrossingCanEndApart | internal/exchange/reports.go:67-72 | from any reached crossing the run can end, with no new command, with nothing in flight and different ExecIDs last on the two sessions |
| Crossings.SessionsEndApartExactlyWhen | internal/exchange/reports.go:67-72 | whatever the way the venue is used, some run ends with the sessions' last reports about an order different exactly when in some run a report about it goes out on the first session while another is between its two sends |
| Acknowledgements.AckIsUntouchedExactlyWhen | internal/exchange/reports.go:170-178 | an acknowledgement shows its order New and unexecuted exactly when no locked change to it came between its Insert and the copy |
| Acknowledgements.AckCanShowAFill | internal/exchange/reports.go:170-178 | any order and any fill of it: the acknowledgement can carry the fill in CumQty, and PartiallyFilled or Filled as its status |
| TimerRaces.TimerStory | internal/exchange/reports.go:186-200 | a timer waits, reads its session once, and then has stood down or is cancelling, by what it read |
| TimerRaces.CancelsWithSessionUpExactlyWhen | internal/exchange/reports.go:190-200 | a timer takes its snapshot, or strikes an order, with its session up exactly when the session came back after the timer's read and was not lost again |
| TimerRaces.SnapshotTakesWhatWorks | internal/exchange/reports.go:206-207 | the snapshot holds exactly the day orders that work at that moment, whenever they came in |
| TimerRaces.ReturnedSessionLosesLateOrder | internal/exchange/reports.go:190-213 | any day order entered after its session is back can be taken by the timer of the outage before, the session being up |
| FillStory.FillIsAllOrNothing | internal/exchange/commands.go:17-51 | under every interleaving a fill without error made exactly one trade, of all its order had left, at the price commanded, and numbered a report of it; one with an error changed no order |
| FillStory.TerminalChangesExactlyWhen | internal/exchange/reports.go:206-213 | a lock section changes a finished order exactly when it is the mass cancel's turn for it and it is not Canceled already |
| FillStory.OnlyTheStatusMoves | internal/exchange/reports.go:209-213 | even then its quantities and price stay |
| FillStory.FilledCanBecomeCanceled | internal/exchange/reports.go:206-213 | any day order with a quantity can be filled whole and then marked Canceled |
| Rejects.HandlingLosesWeight | internal/exchange/exchange.go:262-295 | with either guard, handling a message sends less weight than it had |
| Rejects.DeliveryLowersPotential | internal/client/oe.go:101-134 | with either guard every delivery, in whatever order, lowers the potential of what is in flight |
| Rejects.RunsAreBounded | internal/client/oe.go:112-129 | no exchange of messages is longer than the potential it starts with |
| Rejects.PingPong | internal/client/oe.go:115-127 | with neither guard one business reject is answered any number of times |
| Rejects.StormFreeExactlyWhen | internal/exchange/exchange.go:282-289 | the two applications always come to rest exactly when at least one of them never rejects a reject |
| Rejects.DropCopyClientNeverSends | internal/client/dc.go:47-81 | among messages these applications send, no client ever answers a report and the drop-copy client never sends |
| Watchdogs.TickInterval | internal/session/watchdog.go:88-117 | the period is positive: the configured one, else a quarter of the timeout, else a second |
| Watchdogs.Watchdog.Notify | internal/session/watchdog.go:74-78 | the silence starts again |
| Watchdogs.Watchdog.Start | internal/session/watchdog.go:88-117 | watching starts now, with that period |
| Watchdogs.Watchdog.Check | internal/session/watchdog.go:133-160 | a tick asks for a restart exactly when active and silent for the timeout, and counts it |
| Watchdogs.Client.NoteInbound | internal/session/client.go:69-77 | application traffic feeds every watchdog, admin traffic none |
| Watchdogs.Client.FromAdmin | internal/session/client.go:125-128 | admin traffic changes no watchdog |
| Watchdogs.LastAppIsLatest | internal/session/watchdog.go:74-78 | lastApp is the latest of start, application messages and firings, never in the future |
| Watchdogs.LastAppNeverGoesBack | internal/session/watchdog.go:133-160 | lastApp never goes back |
| Watchdogs.FiringEndsSilence | internal/session/watchdog.go:133-150 | a firing has Active true and at least the timeout since start, every application message and every earlier firing |
| Watchdogs.FiresExactlyWhen | internal/session/watchdog.go:133-150 | a tick fires exactly when Active is true and the whole timeout has passed since start, every application message and every earlier firing |
| Watchdogs.FiringsAreRare | internal/session/watchdog.go:133-150 | firings number at most elapsed time over timeout |
| Watchdogs.SilenceIsNoticed | internal/session/watchdog.go:88-160 | under unbroken active silence it fires, once the timeout is reached, within one period |
| Watchdogs.AdminTrafficIsIgnored | internal/session/watchdog.go:170-176 | runs that differ only in admin traffic end alike and fire alike |
| Supervisors.Supervisor.Start | internal/session/supervisor.go:36-58 | starts one initiator if none is current; a failed build or start leaves none running, and the result says which |
| Supervisors.Supervisor.Stop | internal/session/supervisor.go:61-73 | stops the current initiator if there is one |
| Supervisors.Supervisor.Restart | internal/session/supervisor.go:77-86 | stop, then start; never two running, and success exactly when the rebuild succeeds |
| Supervisors.AlwaysBalanced | internal/session/supervisor.go:36-86 | starts are stops plus one if an initiator is current, over any mix of calls and failures |
| Supervisors.StartsAreFirings | internal/session/watchdog.go:144-159 | left to the watchdog, starts are at most one more than firings |
| Supervisors.LastRebuildDecides | internal/session/supervisor.go:77-86 | an initiator runs exactly when the last firing's rebuild worked out, whatever failed before |
| Supervisors.NoFiringChangesNothing | internal/session/watchdog.go:133-143 | without a firing the supervisor is left alone |
| Redaction.AtoiStrict | internal/fixlog/redact.go:121-133 | accepts exactly non-empty digit strings, and gives their value wrapped to 64 bits |
| Redaction.IsSecret | internal/fixlog/redact.go:106-117 | true exactly for digits that read, wrapped, as tag 96 or 554 |
| Redaction.Redact | internal/fixlog/redact.go:80-104 | the walker computes split on SOH, mask secret fields, join with pipes |
| Redaction.HiddenExactlyWhen | internal/fixlog/redact.go:80-133 | a field is hidden, by four stars, exactly when digits that read as 96 or 554 stand before its first =; every other field is shown as it is |
| Redaction.PasswordIsHidden | internal/fixlog/redact.go:80-104 | tags 96 and 554 hide any value, up to the SOH that ends it, for which a pipe stands |
| Redaction.JoinAfterSplit | internal/fixlog/redact.go:80-104 | splitting loses nothing |
| Redaction.SplitAfterJoin | internal/fixlog/redact.go:80-104 | separator-free fields come back from their join |
| Redaction.NoSohSurvives | internal/fixlog/redact.go:92-101 | no output holds an SOH |
| Redaction.SecretsDoNotShow | internal/fixlog/redact.go:87-99 | inputs that differ only in the values of secret fields look alike |
| Redaction.LengthFollowsFromSecrets | internal/fixlog/redact.go:80-104 | the output's length is the input's, corrected by the masked values' lengths |
| Redaction.FieldsReadBackExactlyWhen | internal/fixlog/redact.go:80-104 | non-secret fields survive byte for byte; the line splits back into its fields exactly when none shows a pipe of its own |
| Redaction.WrappedTagIsSecret | internal/fixlog/redact.go:106-133 | tag numbers that wrap to 96 or 554 are masked too |

## Left out

- The FIX engine: sockets, heartbeats, validation, stores, resend chunking and the form of rejects; only
  the channel above is assumed. A rejection for a missing tag may go out as either kind of reject.
- The decimal library beyond rounding: digits and exponents, and division by zero, which panics there and
  is shown not to occur.
- TransactTime (tag 60).
- What a store that fails in AdvanceSeqNum leaves behind: here nothing changes. The number it returns is read
  off the log, in which every number used is a message or a hole.
- Settings: the reason a timer gives for its mass cancel names the session as config/exchange.cfg does.
- Several sessions in one role, sessions with no role, and the SessionStatus and SeqNums read-outs.
- Passwords, ParseLogon, InjectLogon and the settings files: a Logon is what it asks for and whether its
  password was right. Cancel-on-disconnect types 1, 2 and 3 are alike to the code and here.
- Send errors, which the venue only logs.
- The admin HTTP handlers, the command mains, signals, flags and log text.
- A restarted venue process, which numbers ExecIDs from one again; and the order-entry command, which after
  a watchdog restart builds a new client with a zero counter: ClOrdIDs are told apart per client instance.
- Go data races and goroutine scheduling below lock sections; wall clocks that jump.
- Counter overflow of Go's 64-bit ints.
- Skipped sequence numbers lock by lock: there the session logs hold messages only. Logon refusals are not
  moves there either; an accepted Logon is.
- Resends of a range that ends before the last message: a resend runs to the end of the log, as the
  engine's ResendRequest with EndSeqNo 0 asks.
- Liveness of the lock-granular layer: threads may stop anywhere. That any can be run to its end is part of
  `Races.OverlapCanEndStale` and `Crossings.CrossingCanEndApart`.
