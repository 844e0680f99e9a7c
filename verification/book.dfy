/** The order book: as a value, an insertion-ordered map; as the source keeps it, a map and a slice
    that share their order objects. */
module Books {
  import opened Orders
  import opened Identifiers

  /** The abstract book: ClOrdIDs in insertion order, the orders they name, the ExecID counter. */
  datatype BookState = BookState(ids: seq<string>, orders: map<string, OrderState>, execSeq: nat)
  {
    /** Keys are the orders' own ClOrdIDs, all of them listed; OrderIDs follow insertion position. That
        no ClOrdID is listed twice is a consequence: see `IdsAreDistinct`. */
    ghost predicate WellKept() {
      && (forall i :: 0 <= i < |ids| ==> ids[i] in orders && orders[ids[i]].orderID == OrderId(i + 1))
      && (forall id :: id in orders ==> id in ids && orders[id].terms.clOrdID == id)
    }

    ghost predicate AllSound() {
      forall id :: id in orders ==> orders[id].Sound()
    }

    function Insert(o: OrderState): Result<BookState> {
      var id := o.terms.clOrdID;
      if id in orders then Err(DuplicateClOrdID)
      else Ok(BookState(
        ids + [id],
        orders[id := o.(orderID := OrderId(|ids| + 1), status := New)],
        execSeq))
    }

    function Update(id: string, c: Change): Result<BookState> {
      if id !in orders then Err(UnknownClOrdID)
      else match Apply(c, orders[id])
        case Err(e) => Err(e)
        case Ok(o) => Ok(this.(orders := orders[id := o]))
    }

    /** The working day orders among the first `n`, in insertion order. */
    function OpenDayUpTo(n: nat): seq<OrderState>
      requires n <= |ids|
    {
      if n == 0 then [] else
        OpenDayUpTo(n - 1) + if IsOpenDay(ids[n - 1]) then [orders[ids[n - 1]]] else []
    }

    predicate IsOpenDay(id: string) {
      id in orders && orders[id].IsOpen() && orders[id].IsDay()
    }

    /** The first `n` orders, in insertion order. */
    function ListUpTo(n: nat): (os: seq<OrderState>)
      requires n <= |ids| && forall i :: 0 <= i < n ==> ids[i] in orders
      ensures |os| == n && forall i :: 0 <= i < n ==> os[i] == orders[ids[i]]
    {
      if n == 0 then [] else ListUpTo(n - 1) + [orders[ids[n - 1]]]
    }

    function OpenDay(): seq<OrderState> {
      OpenDayUpTo(|ids|)
    }
  }

  const EMPTY_BOOK := BookState([], map[], 0)

  /** What a change to one order keeps in the whole book. */
  lemma UpdateKeepsBook(b: BookState, id: string, c: Change)
    requires b.WellKept() && b.AllSound() && Commanded(c) && b.Update(id, c).Ok?
    ensures var n := b.Update(id, c).value;
      && n.WellKept() && n.AllSound()
      && n.ids == b.ids && n.execSeq == b.execSeq && n.orders.Keys == b.orders.Keys
      && (forall other :: other in b.orders && other != id ==> n.orders[other] == b.orders[other])
  {
    hide OrderId;
    ApplyKeepsSound(c, b.orders[id]);
  }

  lemma InsertKeepsBook(b: BookState, o: OrderState)
    requires b.WellKept() && b.AllSound() && o.cumQty == 0.0
    requires b.Insert(o).Ok?
    ensures var n := b.Insert(o).value;
      && n.WellKept() && n.AllSound()
      && n.ids == b.ids + [o.terms.clOrdID] && n.orders.Keys == b.orders.Keys + {o.terms.clOrdID}
      && (forall other :: other in b.orders ==> n.orders[other] == b.orders[other])
  {
    hide OrderId;
    var n := b.Insert(o).value;
    forall id | id in n.orders ensures id in n.ids {
      if id in b.ids {
      } else {
        assert n.ids[|b.ids|] == id;
      }
    }
  }

  /** No ClOrdID is listed twice. */
  lemma IdsAreDistinct(b: BookState, i: nat, j: nat)
    requires b.WellKept() && i < |b.ids| && j < |b.ids|
    ensures b.ids[i] == b.ids[j] <==> i == j
  {
    if i != j {
      VenueIdsInjective(i + 1, j + 1);
    }
  }

  /** An order's own OrderID is shared with no other order of the book. */
  lemma OrderIdsAreDistinct(b: BookState, x: string, y: string)
    requires b.WellKept() && x in b.orders && y in b.orders
    ensures b.orders[x].orderID == b.orders[y].orderID <==> x == y
  {
    var i :| 0 <= i < |b.ids| && b.ids[i] == x;
    var j :| 0 <= j < |b.ids| && b.ids[j] == y;
    VenueIdsInjective(i + 1, j + 1);
  }

  /** `OpenDay` lists exactly the working day orders, each once, in insertion order. */
  lemma {:induction false} OpenDayIsTheFilter(b: BookState, n: nat) returns (at: seq<nat>)
    requires (forall i :: 0 <= i < |b.ids| ==> b.ids[i] in b.orders) && n <= |b.ids|
    ensures var os := b.OpenDayUpTo(n);
      && |at| == |os|
      && (forall k :: 0 <= k < |at| ==> at[k] < n && os[k] == b.orders[b.ids[at[k]]])
      && (forall j, k :: 0 <= j < k < |at| ==> at[j] < at[k])
      && (forall i: nat :: i < n ==>
           (i in at <==> b.orders[b.ids[i]].IsOpen() && b.orders[b.ids[i]].IsDay()))
  {
    hide OrderId;
    if n == 0 {
      at := [];
    } else {
      at := OpenDayIsTheFilter(b, n - 1);
      var o := b.orders[b.ids[n - 1]];
      if o.IsOpen() && o.IsDay() {
        at := at + [n - 1];
      }
    }
  }

  /** An order as the book stores it: the fields the source writes are fields here. */
  class Order {
    const terms: Terms
    var orderID: string
    var cumQty: real
    var avgPx: real
    var status: Status

    constructor (o: OrderState)
      ensures Snapshot() == o
    {
      terms, orderID, cumQty, avgPx, status := o.terms, o.orderID, o.cumQty, o.avgPx, o.status;
    }

    function Snapshot(): (o: OrderState)
      reads this
      ensures o.terms == terms
    {
      OrderState(terms, orderID, cumQty, avgPx, status)
    }

    /** What the book writes into an order it takes in. */
    method Accept(id: string)
      modifies this`orderID, this`status
      ensures Snapshot() == old(Snapshot()).(orderID := id, status := New) && orderID == id
    {
      orderID := id;
      status := New;
    }

    /** Runs one of the venue's closures on the order, in place. */
    method Mutate(c: Change) returns (err: Option<Error>)
      modifies this`cumQty, this`avgPx, this`status
      ensures match Apply(c, old(Snapshot()))
        case Ok(o) => err == None && Snapshot() == o
        case Err(e) => err == Some(e) && Snapshot() == old(Snapshot())
    {
      var before := Snapshot();
      match c
      case Trade(qty, px) =>
        if !before.IsOpen() {
          return Some(CannotTrade(status));
        }
        if qty > before.LeavesQty() {
          return Some(ExceedsLeaves);
        }
        avgPx := Averaged(avgPx, cumQty, qty, px);
        cumQty := cumQty + qty;
        status := if cumQty == terms.orderQty then Filled else PartiallyFilled;
        err := None;
      case Close(to) =>
        if !before.IsOpen() {
          return Some(CannotClose(status));
        }
        status := to;
        err := None;
      case ForceCancel =>
        status := Canceled;
        err := None;
    }
  }

  class Book {
    var orders: map<string, Order>
    var sequence: seq<Order>
    var orderSeq: nat
    var execSeq: nat
    /** The abstract book and the objects behind it. */
    ghost var state: BookState
    ghost var repr: set<Order>

    /** The map and the slice hold the same objects, filed under their own ClOrdIDs. */
    static ghost predicate Linked(s: seq<Order>, m: map<string, Order>, r: set<Order>) {
      && (forall i :: 0 <= i < |s| ==> s[i] in r && s[i].terms.clOrdID in m && m[s[i].terms.clOrdID] == s[i])
      && (forall id :: id in m ==> m[id] in s && m[id] in r && m[id].terms.clOrdID == id)
      && (forall o :: o in r ==> o.terms.clOrdID in m && m[o.terms.clOrdID] == o)
    }

    static lemma LinkedAppend(s: seq<Order>, m: map<string, Order>, r: set<Order>, o: Order)
      requires Linked(s, m, r) && o.terms.clOrdID !in m
      ensures o !in r && Linked(s + [o], m[o.terms.clOrdID := o], r + {o})
    {
      assert (s + [o])[|s|] == o;
    }

    /** The abstract book agrees with the objects, one by one. */
    ghost predicate Mirrored()
      reads this, repr
    {
      && |state.ids| == |sequence|
      && (forall i :: 0 <= i < |sequence| ==>
            sequence[i] in repr && state.ids[i] == sequence[i].terms.clOrdID && sequence[i].orderID == OrderId(i + 1))
      && state.orders.Keys == orders.Keys
      && (forall id :: id in orders ==> orders[id] in repr && state.orders[id] == orders[id].Snapshot())
    }

    ghost predicate Valid()
      reads this, repr
    {
      Linked(sequence, orders, repr) && Mirrored() && orderSeq == |sequence| && execSeq == state.execSeq
    }

    /** The slice holds no object twice. */
    lemma ObjectsAreDistinct(i: nat, j: nat)
      requires Valid() && i < |sequence| && j < |sequence|
      ensures sequence[i] == sequence[j] <==> i == j
    {
      hide OrderId, ExecId, Linked, Order.Snapshot;
      if i != j {
        VenueIdsInjective(i + 1, j + 1);
      }
    }

    /** A valid heap book is a well-kept abstract book: the sharing is invisible. */
    lemma ValidIsWellKept()
      requires Valid()
      ensures state.WellKept() && |sequence| == |state.ids|
      ensures forall i :: 0 <= i < |state.ids| ==> state.ids[i] in state.orders
    {
      hide OrderId;
      forall id | id in state.orders ensures id in state.ids && state.orders[id].terms.clOrdID == id {
        var i :| 0 <= i < |sequence| && sequence[i] == orders[id];
        assert state.ids[i] == id;
      }
    }

    constructor ()
      ensures Valid() && state == EMPTY_BOOK && fresh(repr)
    {
      orders, sequence, orderSeq, execSeq := map[], [], 0, 0;
      repr, state := {}, EMPTY_BOOK;
    }

    /** A duplicate ClOrdID changes nothing; any other order joins both the map and the slice. */
    method Insert(o: Order) returns (err: Option<Error>)
      requires Valid()
      modifies this`orders, this`sequence, this`orderSeq, this`repr, this`state, o`orderID, o`status
      ensures Valid()
      ensures match old(state).Insert(old(o.Snapshot()))
        case Err(e) => err == Some(e) && state == old(state) && repr == old(repr)
                       && o.Snapshot() == old(o.Snapshot())
        case Ok(b) => err == None && state == b && repr == old(repr) + {o}
                      && o.Snapshot() == b.orders[o.terms.clOrdID]
    {
      hide OrderId, Linked, Order.Snapshot;
      if o.terms.clOrdID in orders {
        return Some(DuplicateClOrdID);
      }
      assert o !in repr by { NewcomerIsOutside(o); }
      orderSeq := orderSeq + 1;
      o.Accept(OrderId(orderSeq));
      Append(o);
      err := None;
    }

    lemma NewcomerIsOutside(o: Order)
      requires Valid() && o.terms.clOrdID !in orders
      ensures o !in repr
    {
      hide Mirrored;
    }

    /** The two containers take the order in together. */
    method Append(o: Order)
      requires Linked(sequence, orders, repr) && Mirrored() && execSeq == state.execSeq
      requires o.terms.clOrdID !in orders && o.orderID == OrderId(|sequence| + 1) && orderSeq == |sequence| + 1
      modifies this`orders, this`sequence, this`repr, this`state
      ensures Valid() && repr == old(repr) + {o}
      ensures state == BookState(
        old(state.ids) + [o.terms.clOrdID], old(state.orders)[o.terms.clOrdID := o.Snapshot()], execSeq)
    {
      hide OrderId, Order.Snapshot, Linked;
      LinkedAppend(sequence, orders, repr, o);
      orders := orders[o.terms.clOrdID := o];
      sequence := sequence + [o];
      repr := repr + {o};
      state := BookState(state.ids + [o.terms.clOrdID], state.orders[o.terms.clOrdID := o.Snapshot()], execSeq);
    }

    method Get(clOrdID: string) returns (r: Option<OrderState>)
      requires Valid()
      ensures r == if clOrdID in state.orders then Some(state.orders[clOrdID]) else None
    {
      if clOrdID in orders {
        r := Some(orders[clOrdID].Snapshot());
      } else {
        r := None;
      }
    }

    /** Mutating one shared object is one map update, and nothing else moves. */
    method Update(clOrdID: string, c: Change) returns (r: Result<OrderState>)
      requires Valid()
      modifies this`state, repr
      ensures Valid()
      ensures match old(state).Update(clOrdID, c)
        case Err(e) => r == Err(e) && state == old(state)
        case Ok(b) => state == b && r == Ok(b.orders[clOrdID])
    {
      hide OrderId, Apply, Order.Snapshot;
      if clOrdID !in orders {
        return Err(UnknownClOrdID);
      }
      var o := orders[clOrdID];
      var err := MutateIn(clOrdID, o, c);
      if err.Some? {
        return Err(err.value);
      }
      return Ok(o.Snapshot());
    }

    /** Each object is filed under one ClOrdID. */
    lemma FiledOnce(clOrdID: string)
      requires Valid() && clOrdID in orders
      ensures forall id :: id in orders && orders[id] == orders[clOrdID] ==> id == clOrdID
    {
      hide OrderId, Mirrored;
    }

    /** The closure runs on the shared object, and the abstract book follows. */
    method MutateIn(clOrdID: string, o: Order, c: Change) returns (err: Option<Error>)
      requires Valid() && clOrdID in orders && orders[clOrdID] == o
      modifies this`state, o`cumQty, o`avgPx, o`status
      ensures Valid()
      ensures match Apply(c, old(o.Snapshot()))
        case Ok(n) => err == None && o.Snapshot() == n
                      && state == old(state).(orders := old(state).orders[clOrdID := n])
        case Err(e) => err == Some(e) && state == old(state)
    {
      hide OrderId, Apply, Order.Snapshot, Linked;
      FiledOnce(clOrdID);
      err := o.Mutate(c);
      if err == None {
        state := state.(orders := state.orders[clOrdID := o.Snapshot()]);
        forall id | id in orders ensures orders[id] in repr && state.orders[id] == orders[id].Snapshot() {
          assert id != clOrdID ==> orders[id].Snapshot() == old(orders[id].Snapshot());
        }
      }
    }

    /** The order at a position of the slice is the one the abstract book lists there. */
    lemma SnapshotAt(i: nat)
      requires Valid() && i < |sequence|
      ensures |state.ids| == |sequence| && state.ids[i] in state.orders
      ensures sequence[i] in repr && sequence[i].Snapshot() == state.orders[state.ids[i]]
    {
      hide OrderId;
    }

    method OpenDayOrders() returns (out: seq<OrderState>)
      requires Valid()
      ensures out == state.OpenDay()
    {
      hide OrderId, Linked, Mirrored, BookState.WellKept, Order.Snapshot;
      ValidIsWellKept();
      out := [];
      for i := 0 to |sequence|
        invariant out == state.OpenDayUpTo(i)
      {
        SnapshotAt(i);
        var o := sequence[i].Snapshot();
        if o.IsOpen() && o.IsDay() {
          out := out + [o];
        }
      }
    }

    method All() returns (out: seq<OrderState>)
      requires Valid()
      ensures forall i :: 0 <= i < |state.ids| ==> state.ids[i] in state.orders
      ensures out == state.ListUpTo(|state.ids|)
    {
      hide OrderId, Linked, Mirrored, BookState.WellKept, Order.Snapshot;
      ValidIsWellKept();
      out := [];
      for i := 0 to |sequence|
        invariant out == state.ListUpTo(i)
      {
        SnapshotAt(i);
        out := out + [sequence[i].Snapshot()];
      }
    }

    method NextExecID() returns (id: string)
      requires Valid()
      modifies this`execSeq, this`state
      ensures Valid() && state == old(state).(execSeq := old(state).execSeq + 1)
      ensures id == ExecId(state.execSeq)
    {
      hide OrderId, ExecId;
      execSeq := execSeq + 1;
      state := state.(execSeq := execSeq);
      id := ExecId(execSeq);
    }
  }
}
