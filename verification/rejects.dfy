/** The two applications answering each other: messages in flight, each delivery may send more. The
    engine turns a rejection an application returns into a reject message to the other side. */
module Rejects {
  import opened Orders
  import opened Identifiers
  import opened Books
  import opened Messages
  import opened Venue
  import opened Clients

  datatype Flight = ToVenue(from: Kind, body: Body) | ToClient(to: Kind, body: Body)

  /** Whether each side keeps its rule never to reject a reject. The code has both. */
  datatype Guards = Guards(venue: bool, client: bool)

  datatype Net = Net(venue: VenueState, flights: seq<Flight>)

  function VenueAnswer(g: Guards, v: VenueState, kind: Kind, body: Body): Reply {
    if !g.venue && kind == OrderEntry && (body.BusinessReject? || body.SessionReject?)
    then Reply(v, Some(Unsupported))
    else DoFromApp(v, kind, body)
  }

  function ClientAnswer(g: Guards, kind: Kind, body: Body): Option<Rejection> {
    if kind == DropCopy then DcAnswer(body)
    else if !g.client && body.BusinessReject? then Some(Unsupported)
    else OeAnswer(body)
  }

  /** A missing tag goes out as either kind of reject, by the engine's choice; the applications' own
      refusals are business rejects. */
  function Form(r: Rejection, asSession: bool): Body {
    if r.MissingTag? && asSession then SessionReject else BusinessReject
  }

  function CopyFor(kind: Kind, v: VenueState, r: Report): seq<Flight> {
    if kind in v.logs then [ToClient(kind, ExecutionReport(FieldsOf(Build(r))))] else []
  }

  /** The copies of a newly issued report: one for each configured session. */
  function Copies(before: VenueState, after: VenueState): seq<Flight> {
    if |after.issued| <= |before.issued| || after.issued[|after.issued| - 1].dropped then [] else
      var r := after.issued[|after.issued| - 1].report;
      CopyFor(OrderEntry, after, r) + CopyFor(DropCopy, after, r)
  }

  /** What handling one message sends, and the venue after it. */
  function Handled(g: Guards, v: VenueState, f: Flight, asSession: bool): Net {
    match f
    case ToVenue(from, body) =>
      var reply := VenueAnswer(g, v, from, body);
      Net(reply.state, Copies(v, reply.state)
        + if reply.rejection.Some? then [ToClient(from, Form(reply.rejection.value, asSession))] else [])
    case ToClient(to, body) =>
      var rejection := ClientAnswer(g, to, body);
      Net(v, if rejection.Some? then [ToVenue(to, Form(rejection.value, asSession))] else [])
  }

  /** Which message is delivered next, in whatever order, and the engine's choice of reject. */
  datatype Pick = Pick(flight: nat, asSession: bool)

  function Deliver(g: Guards, n: Net, d: Pick): Net
    requires d.flight < |n.flights|
  {
    var h := Handled(g, n.venue, n.flights[d.flight], d.asSession);
    Net(h.venue, n.flights[..d.flight] + n.flights[d.flight + 1..] + h.flights)
  }

  /** The deliveries `ds` can be made one after the other, starting in `n`. */
  ghost predicate CanRun(g: Guards, n: Net, ds: seq<Pick>)
    decreases |ds|
  {
    ds == [] || (ds[0].flight < |n.flights| && CanRun(g, Deliver(g, n, ds[0]), ds[1..]))
  }

  // ----- the potential -----

  /** A reject on its way to the venue, or to the order-entry client. */
  function RejectToVenue(g: Guards): nat {
    if g.venue then 1 else 2
  }

  function BusinessRejectToClient(g: Guards): nat {
    if g.client then 1 else 1 + RejectToVenue(g)
  }

  /** How many deliveries a message can still lead to, itself included. */
  function Weight(g: Guards, f: Flight): nat {
    match f
    case ToVenue(DropCopy, _) => 2
    case ToVenue(OrderEntry, body) =>
      (match body
       case BusinessReject => RejectToVenue(g)
       case SessionReject => RejectToVenue(g)
       case NewOrderSingle(_) => 2 + RejectToVenue(g)
       case NoMsgType => 2 + RejectToVenue(g)
       case _ => 1 + BusinessRejectToClient(g))
    case ToClient(DropCopy, body) => if DcAnswer(body).Some? then 3 else 1
    case ToClient(OrderEntry, body) =>
      if body.BusinessReject? then BusinessRejectToClient(g)
      else if OeAnswer(body).Some? then 1 + RejectToVenue(g)
      else 1
  }

  function Potential(g: Guards, fs: seq<Flight>): nat {
    if fs == [] then 0 else Weight(g, fs[0]) + Potential(g, fs[1..])
  }

  lemma {:induction false} PotentialConcat(g: Guards, a: seq<Flight>, b: seq<Flight>)
    ensures Potential(g, a + b) == Potential(g, a) + Potential(g, b)
  {
    hide Weight;
    if a == [] {
      assert a + b == b;
    } else {
      PotentialConcat(g, a[1..], b);
      assert (a + b)[1..] == a[1..] + b;
    }
  }

  /** A report the venue built has every field either client asks for, so its copies weigh one each. */
  lemma CopiesWeigh(g: Guards, before: VenueState, after: VenueState)
    ensures Potential(g, Copies(before, after)) <= 2
    ensures |after.issued| <= |before.issued| ==> Potential(g, Copies(before, after)) == 0
  {
    hide Build;
    if Copies(before, after) != [] {
      var r := after.issued[|after.issued| - 1].report;
      PotentialConcat(g, CopyFor(OrderEntry, after, r), CopyFor(DropCopy, after, r));
      OneFlight(g, CopyFor(OrderEntry, after, r));
      OneFlight(g, CopyFor(DropCopy, after, r));
    }
  }

  /** Handling a message sends messages of less weight, all told, than its own, if either side has
      its guard. */
  lemma HandlingLosesWeight(g: Guards, v: VenueState, f: Flight, asSession: bool)
    requires g.venue || g.client
    ensures Potential(g, Handled(g, v, f, asSession).flights) < Weight(g, f)
  {
    hide Build, ExecId, OrderId, Copies, BookState.Insert, Received, FieldsOf, Incomplete, Publish;
    if f.ToVenue? {
      var reply := VenueAnswer(g, v, f.from, f.body);
      CopiesWeigh(g, v, reply.state);
      var back := if reply.rejection.Some? then [ToClient(f.from, Form(reply.rejection.value, asSession))] else [];
      PotentialConcat(g, Copies(v, reply.state), back);
      RefusalsChangeNothing(g, v, f.from, f.body);
      OneFlight(g, back);
    } else {
      OneFlight(g, Handled(g, v, f, asSession).flights);
    }
  }

  lemma OneFlight(g: Guards, fs: seq<Flight>)
    requires |fs| <= 1
    ensures Potential(g, fs) == if fs == [] then 0 else Weight(g, fs[0])
  {
    hide Weight;
  }

  /** A message is answered with a reject or acted upon, never both. */
  lemma RefusalsChangeNothing(g: Guards, v: VenueState, kind: Kind, body: Body)
    ensures var reply := VenueAnswer(g, v, kind, body);
      && (reply.rejection.Some? ==> reply.state == v)
      && (!body.NewOrderSingle? || kind == DropCopy ==> reply.state == v)
  {
    hide Build, ExecId, OrderId, BookState.Insert, Received, Incomplete;
  }

  /** Every delivery lowers the potential. */
  lemma DeliveryLowersPotential(g: Guards, n: Net, d: Pick)
    requires (g.venue || g.client) && d.flight < |n.flights|
    ensures Potential(g, Deliver(g, n, d).flights) < Potential(g, n.flights)
  {
    hide Weight, Handled;
    var i, fs := d.flight, n.flights;
    var h := Handled(g, n.venue, fs[i], d.asSession);
    HandlingLosesWeight(g, n.venue, fs[i], d.asSession);
    PotentialConcat(g, fs[..i] + fs[i + 1..], h.flights);
    PotentialConcat(g, fs[..i], fs[i + 1..]);
    PotentialConcat(g, fs[..i], fs[i..]);
    assert fs == fs[..i] + fs[i..] && fs[i..][0] == fs[i] && fs[i..][1..] == fs[i + 1..];
  }

  /** No run is longer than the potential it starts with. */
  lemma {:induction false} RunsAreBounded(g: Guards, n: Net, ds: seq<Pick>)
    requires (g.venue || g.client) && CanRun(g, n, ds)
    ensures |ds| <= Potential(g, n.flights)
    decreases |ds|
  {
    hide Deliver, Potential;
    if ds != [] {
      DeliveryLowersPotential(g, n, ds[0]);
      RunsAreBounded(g, Deliver(g, n, ds[0]), ds[1..]);
    }
  }

  // ----- exactly when there is no storm -----

  ghost predicate BoundedFrom(g: Guards, n: Net, most: nat) {
    forall ds :: CanRun(g, n, ds) ==> |ds| <= most
  }

  ghost predicate ComesToRest(g: Guards, n: Net) {
    exists most: nat :: BoundedFrom(g, n, most)
  }

  /** From any messages in flight, however delivered, the exchange comes to rest. */
  ghost predicate StormFree(g: Guards) {
    forall n: Net :: ComesToRest(g, n)
  }

  function Again(k: nat): (ds: seq<Pick>)
    ensures |ds| == k
  {
    if k == 0 then [] else [Pick(0, false)] + Again(k - 1)
  }

  /** Without either guard a business reject is answered by another. */
  lemma Volley(v: VenueState, f: Flight, back: Flight)
    requires f == ToVenue(OrderEntry, BusinessReject) || f == ToClient(OrderEntry, BusinessReject)
    requires back == if f.ToVenue? then ToClient(OrderEntry, BusinessReject) else ToVenue(OrderEntry, BusinessReject)
    ensures Deliver(Guards(false, false), Net(v, [f]), Pick(0, false)) == Net(v, [back])
  {
    hide DoFromApp, CopyFor;
    assert Copies(v, v) == [];
    assert Handled(Guards(false, false), v, f, false) == Net(v, [back]);
  }

  /** Without either guard, one business reject is answered for ever. */
  lemma {:induction false} PingPong(v: VenueState, f: Flight, k: nat)
    requires f == ToVenue(OrderEntry, BusinessReject) || f == ToClient(OrderEntry, BusinessReject)
    ensures CanRun(Guards(false, false), Net(v, [f]), Again(k))
    decreases k
  {
    hide Deliver;
    if k > 0 {
      var back := if f.ToVenue? then ToClient(OrderEntry, BusinessReject) else ToVenue(OrderEntry, BusinessReject);
      Volley(v, f, back);
      PingPong(v, back, k - 1);
      assert Again(k)[1..] == Again(k - 1);
    }
  }

  /** Reject storms cannot happen exactly when at least one side never rejects a reject. The source
      has both guards; its comment that one alone would only lengthen the loop is not so. */
  lemma StormFreeExactlyWhen(g: Guards)
    ensures StormFree(g) <==> g.venue || g.client
  {
    hide CanRun, Potential;
    if g.venue || g.client {
      forall n: Net ensures ComesToRest(g, n) {
        var most := Potential(g, n.flights);
        forall ds | CanRun(g, n, ds) ensures |ds| <= most {
          RunsAreBounded(g, n, ds);
        }
        assert BoundedFrom(g, n, most);
      }
    } else {
      var n := Net(Initial({}), [ToVenue(OrderEntry, BusinessReject)]);
      if ComesToRest(g, n) {
        var most: nat :| BoundedFrom(g, n, most);
        PingPong(n.venue, n.flights[0], most + 1);
        assert CanRun(g, n, Again(most + 1));
      }
    }
  }

  // ----- what the drop-copy session carries -----

  /** A message that one of this repository's applications can have sent, with the drop-copy client
      sending none. */
  ghost predicate Genuine(f: Flight) {
    match f
    case ToVenue(from, _) => from == OrderEntry
    case ToClient(OrderEntry, body) => !body.ExecutionReport? || OeAnswer(body).None?
    case ToClient(DropCopy, body) => DcAnswer(body).None?
  }

  ghost predicate AllGenuine(fs: seq<Flight>) {
    forall i :: 0 <= i < |fs| ==> Genuine(fs[i])
  }

  lemma HandlingStaysGenuine(g: Guards, v: VenueState, f: Flight, asSession: bool)
    requires Genuine(f)
    ensures AllGenuine(Handled(g, v, f, asSession).flights)
  {
    hide Build, ExecId, OrderId, BookState.Insert, Received, Incomplete, Publish, DoFromApp;
  }

  function Run(g: Guards, n: Net, ds: seq<Pick>): Net
    requires CanRun(g, n, ds)
    decreases |ds|
  {
    if ds == [] then n else Run(g, Deliver(g, n, ds[0]), ds[1..])
  }

  /** The drop-copy client never sends, and no report is ever answered, in any run. */
  lemma {:induction false} DropCopyClientNeverSends(g: Guards, n: Net, ds: seq<Pick>)
    requires AllGenuine(n.flights) && CanRun(g, n, ds)
    ensures AllGenuine(Run(g, n, ds).flights)
    ensures forall f :: f in Run(g, n, ds).flights && f.ToVenue? ==> f.from == OrderEntry
    ensures forall f :: f in Run(g, n, ds).flights && f.ToClient? && f.body.ExecutionReport?
              ==> ClientAnswer(g, f.to, f.body).None?
    decreases |ds|
  {
    hide Handled;
    if ds != [] {
      HandlingStaysGenuine(g, n.venue, n.flights[ds[0].flight], ds[0].asSession);
      DropCopyClientNeverSends(g, Deliver(g, n, ds[0]), ds[1..]);
    }
  }
}
