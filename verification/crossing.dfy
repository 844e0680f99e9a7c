/** A report goes out on one session and then on the other, with no lock around the two sends. When the
    two sessions end with the same report about an order, and when they do not. */
module Crossings {
  import opened Orders
  import opened Identifiers
  import opened Books
  import opened Interleaving
  import opened Effects
  import opened Overtaking
  import opened Concurrent
  import opened Draining

  predicate HalfSent(pc: Pc, id: string) {
    pc.SendDc? && About(pc.r, id)
  }

  /** Thread `t` is about to send a report about the order on the first session, while thread `u` has sent
      another there and has yet to send it on the second. */
  predicate Crosses(s: State, t: nat, u: nat, id: string) {
    && t < |s.threads| && u < |s.threads| && u != t
    && s.threads[t].SendOe? && About(s.threads[t].r, id) && HalfSent(s.threads[u], id)
  }

  ghost predicate CrossingAt(ms: seq<Move>, k: nat, id: string)
    requires k < |ms|
  {
    ms[k].Step? && exists u: nat :: Crosses(Reached(ms[..k]), ms[k].thread, u, id)
  }

  ghost predicate NeverCrosses(ms: seq<Move>, id: string) {
    forall k: nat :: k < |ms| ==> !CrossingAt(ms, k, id)
  }

  // ----- without a crossing the sessions stay in step -----

  /** At most one thread has a report about the order between its two sends, and that report is the first
      session's last about it; if none has, the two sessions have the same last. */
  ghost predicate InStep(s: State, id: string) {
    && (forall u, v :: 0 <= u < v < |s.threads| ==> !(HalfSent(s.threads[u], id) && HalfSent(s.threads[v], id)))
    && (forall u :: 0 <= u < |s.threads| && HalfSent(s.threads[u], id) ==>
          LastAbout(s.oe, id) == Some(s.threads[u].r))
    && (NoneHalfSent(s, id) ==> LastAbout(s.oe, id) == LastAbout(s.dc, id))
  }

  ghost predicate NoneHalfSent(s: State, id: string) {
    forall u :: 0 <= u < |s.threads| ==> !HalfSent(s.threads[u], id)
  }

  lemma FirstSendStaysInStep(s: State, t: nat, id: string)
    requires InStep(s, id) && t < |s.threads| && forall u: nat :: !Crosses(s, t, u, id)
    requires s.threads[t].SendOe? && About(s.threads[t].r, id)
    ensures InStep(Run(s, t), id)
  {
    var n := Run(s, t);
    LogsGrow(s, t);
    LastAboutAppend(s.oe, s.threads[t].r, id);
    hide Run, LastAbout, About;
    forall u: nat | u < |n.threads| && u != t ensures !HalfSent(n.threads[u], id) {
      assert n.threads[u] == s.threads[u] && !Crosses(s, t, u, id);
    }
    assert HalfSent(n.threads[t], id);
  }

  lemma SecondSendStaysInStep(s: State, t: nat, id: string)
    requires InStep(s, id) && t < |s.threads| && HalfSent(s.threads[t], id)
    ensures InStep(Run(s, t), id)
  {
    var n := Run(s, t);
    LogsGrow(s, t);
    LastAboutAppend(s.dc, s.threads[t].r, id);
    hide Run, LastAbout, About;
    forall u: nat | u < |n.threads| ensures !HalfSent(n.threads[u], id) {
      if u != t {
        assert n.threads[u] == s.threads[u];
      }
    }
  }

  lemma StepStaysInStep(s: State, t: nat, id: string)
    requires InStep(s, id) && t < |s.threads| && forall u: nat :: !Crosses(s, t, u, id)
    ensures InStep(Run(s, t), id)
  {
    hide Run, LastAbout, InStep, MovesOnly;
    var n, pc := Run(s, t), s.threads[t];
    if pc.SendOe? && About(pc.r, id) {
      FirstSendStaysInStep(s, t, id);
    } else if HalfSent(pc, id) {
      SecondSendStaysInStep(s, t, id);
    } else {
      LogsGrow(s, t);
      if pc.SendOe? || pc.SendDc? {
        LastAboutAppend(s.oe, pc.r, id);
        LastAboutAppend(s.dc, pc.r, id);
      }
      SameHalves(s, n, t, id);
    }
  }

  /** Nothing about the order is sent. */
  lemma SameHalves(s: State, n: State, t: nat, id: string)
    requires InStep(s, id) && t < |s.threads| && MovesOnly(s, n, t)
    requires !HalfSent(s.threads[t], id) && !HalfSent(n.threads[t], id)
    requires LastAbout(n.oe, id) == LastAbout(s.oe, id) && LastAbout(n.dc, id) == LastAbout(s.dc, id)
    ensures InStep(n, id)
  {
    hide HalfSent, LastAbout;
    if NoneHalfSent(n, id) {
      forall u | 0 <= u < |s.threads| ensures !HalfSent(s.threads[u], id) {
        if u != t {
          assert n.threads[u] == s.threads[u];
        }
      }
    }
  }

  lemma OtherMovesStayInStep(s: State, m: Move, id: string)
    requires InStep(s, id) && (!m.Step? || m.thread >= |s.threads|)
    ensures InStep(After(s, m), id)
  {
    OtherMoves(s, m);
    var n := After(s, m);
    hide After, LastAbout, About;
    forall u | 0 <= u < |n.threads| && HalfSent(n.threads[u], id) ensures u < |s.threads| && n.threads[u] == s.threads[u] {
      if u < |s.threads| {
        assert n.threads[..|s.threads|][u] == n.threads[u];
      }
    }
    if NoneHalfSent(n, id) {
      forall u | 0 <= u < |s.threads| ensures !HalfSent(s.threads[u], id) {
        assert n.threads[..|s.threads|][u] == n.threads[u];
      }
    }
  }

  lemma {:induction false} StaysInStep(ms: seq<Move>, id: string)
    requires NeverCrosses(ms, id)
    ensures InStep(Reached(ms), id)
  {
    hide InStep, Crosses, Run;
    if ms == [] {
      NothingReached();
      assert InStep(EMPTY, id) by { NothingHalfSent(id); }
    } else {
      var n := |ms| - 1;
      var past := ms[..n];
      var s := Reached(past);
      forall k: nat | k < n ensures !CrossingAt(past, k, id) {
        assert past[..k] == ms[..k] && !CrossingAt(ms, k, id);
      }
      StaysInStep(past, id);
      ReachedStep(ms, n);
      assert ms[..n + 1] == ms && !CrossingAt(ms, n, id);
      if ms[n].Step? && ms[n].thread < |s.threads| {
        StepStaysInStep(s, ms[n].thread, id);
      } else {
        OtherMovesStayInStep(s, ms[n], id);
      }
    }
  }

  lemma NothingHalfSent(id: string)
    ensures InStep(EMPTY, id)
  {
  }

  /** Forward, over all runs, silence included: if no report about the order goes out on the first session
      while another is between its two sends, then with nothing in flight the two sessions have the same
      last report about it. */
  lemma SessionsEndAlike(ms: seq<Move>, id: string)
    requires NeverCrosses(ms, id)
    ensures var s := Reached(ms); Quiet(s) ==> LastAbout(s.oe, id) == LastAbout(s.dc, id)
  {
    hide Reached, NeverCrosses, LastAbout;
    StaysInStep(ms, id);
  }

  // ----- a mass cancel names an order once -----

  predicate Distinct(ids: seq<string>) {
    forall i, j :: 0 <= i < j < |ids| ==> ids[i] != ids[j]
  }

  /** What a mass cancel still has before it names no order twice, the one in hand included. */
  predicate NamesOnce(pc: Pc) {
    match pc
    case CancelUpdate(todo, _) => Distinct(todo)
    case _ =>
      InHand(pc).Some? && NextOf(pc).Resume? ==>
        Distinct([InHand(pc).value.order.terms.clOrdID] + NextOf(pc).todo)
  }

  ghost predicate AllNameOnce(s: State) {
    forall u :: 0 <= u < |s.threads| ==> NamesOnce(s.threads[u])
  }

  lemma SnapshotNamesOnce(b: BookState)
    requires b.WellKept()
    ensures Distinct(SnapshotIds(b.OpenDay()))
  {
    hide OrderId;
    var at := OpenDayIsTheFilter(b, |b.ids|);
    var ids := SnapshotIds(b.OpenDay());
    forall i, j | 0 <= i < j < |ids| ensures ids[i] != ids[j] {
      IdsAreDistinct(b, at[i], at[j]);
    }
  }

  lemma TailIsDistinct(id: string, rest: seq<string>)
    requires Distinct([id] + rest)
    ensures Distinct(rest) && id !in rest
  {
    var all := [id] + rest;
    forall i, j | 0 <= i < j < |rest| ensures rest[i] != rest[j] {
      assert all[i + 1] != all[j + 1];
    }
    forall i | 0 <= i < |rest| ensures rest[i] != id {
      assert all[0] != all[i + 1];
    }
  }

  lemma StepNamesOnce(s: State, t: nat)
    requires BookInv(s) && t < |s.threads| && NamesOnce(s.threads[t])
    ensures NamesOnce(Run(s, t).threads[t])
  {
    var pc := s.threads[t];
    if Updates(s, t) {
      UpdateEffect(s, t);
      hide BookInv, Run, Updates, UpTo;
      if pc.CancelUpdate? {
        assert pc.todo == [pc.todo[0]] + pc.todo[1..];
      }
    } else if InHand(pc).Some? {
      CarrierNamesOnce(s, t);
    } else {
      EmptyHandNamesOnce(s, t);
    }
  }

  lemma CarrierNamesOnce(s: State, t: nat)
    requires t < |s.threads| && InHand(s.threads[t]).Some? && NamesOnce(s.threads[t])
    ensures NamesOnce(Run(s, t).threads[t])
  {
    hide ExecId, Distinct;
    var pc := s.threads[t];
    if NextOf(pc).Resume? {
      TailIsDistinct(InHand(pc).value.order.terms.clOrdID, NextOf(pc).todo);
    }
  }

  lemma RefusalNamesOnce(s: State, t: nat)
    requires BookInv(s) && t < |s.threads| && !Updates(s, t) && LockingOf(s.threads[t]).Some?
    requires NamesOnce(s.threads[t])
    ensures NamesOnce(Run(s, t).threads[t])
  {
    hide Run, BookInv, Locked, BookState.Update, Distinct;
    var pc, l := s.threads[t], LockingOf(s.threads[t]).value;
    RunIsLocked(s, t);
    LockedRefuses(s, t, l.id, l.change, l.reason, l.next);
    if pc.CancelUpdate? {
      assert pc.todo == [pc.todo[0]] + pc.todo[1..];
      TailIsDistinct(pc.todo[0], pc.todo[1..]);
    }
  }

  lemma EmptyHandNamesOnce(s: State, t: nat)
    requires BookInv(s) && t < |s.threads| && !Updates(s, t) && InHand(s.threads[t]).None? && NamesOnce(s.threads[t])
    ensures NamesOnce(Run(s, t).threads[t])
  {
    hide BookInv, BookState.Insert, BookState.OpenDay, SnapshotIds, OrderState.LeavesQty, Distinct, Locked, Updates;
    if LockingOf(s.threads[t]).Some? {
      RefusalNamesOnce(s, t);
    } else if s.threads[t].TakeSnapshot? {
      BookIsSound(s);
      SnapshotNamesOnce(s.book);
    }
  }

  lemma {:induction false} ReachedNamesOnce(ms: seq<Move>)
    ensures AllNameOnce(Reached(ms))
  {
    hide NamesOnce, After, BookInv;
    if ms == [] {
      NothingReached();
    } else {
      var past := ms[..|ms| - 1];
      ReachedNamesOnce(past);
      ReachedBook(past);
      hide Reached;
      ReachedStep(ms, |past|);
      assert ms[..|past| + 1] == ms;
      MoveNamesOnce(Reached(past), ms[|past|]);
    }
  }

  lemma MoveNamesOnce(s: State, m: Move)
    requires BookInv(s) && AllNameOnce(s)
    ensures AllNameOnce(After(s, m))
  {
    hide BookInv, NamesOnce, Run;
    var n := After(s, m);
    if m.Step? && m.thread < |s.threads| {
      RunMovesOnly(s, m.thread);
      StepNamesOnce(s, m.thread);
    } else {
      NewcomersNameNothing(s, m);
    }
  }

  lemma NewcomersNameNothing(s: State, m: Move)
    requires AllNameOnce(s) && (!m.Step? || m.thread >= |s.threads|)
    ensures AllNameOnce(After(s, m))
  {
    hide Run;
  }

  // ----- after a crossing they can end apart -----

  /** The sessions' last reports about the order are two different ones. */
  predicate Apart(s: State, id: string) {
    var a, b := LastAbout(s.oe, id), LastAbout(s.dc, id);
    a.Some? && b.Some? && a.value.execID != b.value.execID
  }

  /** Thread `u` is between its two sends of a report which the first session no longer has last. */
  ghost predicate Trails(s: State, u: nat, id: string) {
    && u < |s.threads| && HalfSent(s.threads[u], id)
    && LastAbout(s.oe, id).Some? && LastAbout(s.oe, id).value.execID != s.threads[u].r.execID
  }

  /** No two threads hold the same ExecID. */
  lemma HeldOnce(s: State, t: nat, u: nat)
    requires Inv(s) && t < |s.threads| && u < |s.threads| && t != u
    requires s.threads[t].SendOe? && s.threads[u].SendDc?
    ensures s.threads[t].r.execID != s.threads[u].r.execID
  {
    hide BookInv, TradeInv, Sum, Pending, ExecId;
    var w := CountOf(s.threads[u].r.execID);
    assert LogLaw(s, w);
    assert Sequenced(s.numbered);
    hide NumberInv, LogInv, Sequenced;
    NumberedOnce(s.numbered, s.threads[u].r.execID);
    SumIsNonNegative(s.dc, w);
    SumIsNonNegative(s.dropped, w);
    PendingMoves(s.threads, t, Done(true), UnsentDc, w);
    var ts := s.threads[t := Done(true)];
    PendingMoves(ts, u, Done(true), UnsentDc, w);
    PendingIsNonNegative(ts[u := Done(true)], UnsentDc, w);
  }

  lemma CrossingTrails(s: State, t: nat, u: nat, id: string)
    requires Inv(s) && Crosses(s, t, u, id)
    ensures Trails(Run(s, t), u, id)
  {
    HeldOnce(s, t, u);
    LogsGrow(s, t);
    hide Inv, Run;
    LastAboutAppend(s.oe, s.threads[t].r, id);
  }

  lemma StepLetsTrail(s: State, x: nat, u: nat, id: string)
    requires Inv(s) && Trails(s, u, id) && x < |s.threads| && x != u
    ensures Trails(Run(s, x), u, id)
  {
    hide Run, Inv, LastAbout;
    LogsGrow(s, x);
    if s.threads[x].SendOe? {
      HeldOnce(s, x, u);
      LastAboutAppend(s.oe, s.threads[x].r, id);
    }
  }

  lemma {:induction false} TrailsOn(s: State, more: seq<Move>, u: nat, id: string)
    requires Inv(s) && Trails(s, u, id) && Around(more, u)
    ensures Trails(Onward(s, more), u, id)
    decreases |more|
  {
    hide Inv, Trails, Run;
    if more != [] {
      var x := more[0].thread;
      if x < |s.threads| {
        AfterKeepsInv(s, more[0]);
        StepLetsTrail(s, x, u, id);
      }
      TrailsOn(After(s, more[0]), more[1..], u, id);
    }
  }

  /** The thread will send nothing more about the order. */
  predicate Mum(pc: Pc, id: string) {
    match pc
    case CancelUpdate(todo, _) => id !in todo
    case Done(_) => true
    case _ => InHand(pc).Some? && !About(InHand(pc).value, id) && (NextOf(pc).Resume? ==> id !in NextOf(pc).todo)
  }

  lemma CarrierStaysMum(s: State, u: nat, id: string)
    requires u < |s.threads| && Mum(s.threads[u], id) && InHand(s.threads[u]).Some?
    ensures Mum(Run(s, u).threads[u], id)
  {
    hide ExecId;
    match s.threads[u] {
      case SendDc(r, k) =>
      case _ =>
    }
  }

  lemma EmptyHandStaysMum(s: State, u: nat, id: string)
    requires BookInv(s) && u < |s.threads| && Mum(s.threads[u], id) && InHand(s.threads[u]).None?
    ensures Mum(Run(s, u).threads[u], id)
  {
    hide BookInv, Locked, BookState.Update, UpTo, Changes;
    match s.threads[u] {
      case CancelUpdate(todo, reason) =>
        hide Run;
        if todo != [] {
          RunIsLocked(s, u);
          if Updates(s, u) {
            UpdateEffect(s, u);
            hide MovesOnly;
          } else {
            LockedRefuses(s, u, todo[0], ForceCancel, reason, Resume(todo[1..], reason));
          }
        } else {
          EndsMum(s, u, id);
        }
      case _ =>
    }
  }

  lemma EndsMum(s: State, u: nat, id: string)
    requires u < |s.threads| && s.threads[u].CancelUpdate? && s.threads[u].todo == []
    ensures Mum(Run(s, u).threads[u], id)
  {
  }

  lemma StepStaysMum(s: State, u: nat, id: string)
    requires BookInv(s) && u < |s.threads| && Mum(s.threads[u], id)
    ensures var n := Run(s, u);
      u < |n.threads| && Mum(n.threads[u], id)
      && LastAbout(n.oe, id) == LastAbout(s.oe, id) && LastAbout(n.dc, id) == LastAbout(s.dc, id)
  {
    hide Run, BookInv, LastAbout;
    var pc := s.threads[u];
    LogsGrow(s, u);
    if InHand(pc).Some? {
      CarrierStaysMum(s, u, id);
      LastAboutAppend(s.oe, InHand(pc).value, id);
      LastAboutAppend(s.dc, InHand(pc).value, id);
    } else {
      EmptyHandStaysMum(s, u, id);
    }
  }

  lemma {:induction false} MumThroughout(s: State, more: seq<Move>, u: nat, id: string)
    requires BookInv(s) && u < |s.threads| && Mum(s.threads[u], id) && Alone(more, u)
    ensures var w := Onward(s, more);
      LastAbout(w.oe, id) == LastAbout(s.oe, id) && LastAbout(w.dc, id) == LastAbout(s.dc, id)
    decreases |more|
  {
    hide BookInv, Mum, Run, LastAbout;
    if more != [] {
      assert more[0] in more;
      RunKeepsBookInv(s, u);
      StepStaysMum(s, u, id);
      assert Alone(more[1..], u) by {
        forall m | m in more[1..] ensures m == Step(u) {
          assert m in more;
        }
      }
      MumThroughout(After(s, more[0]), more[1..], u, id);
    }
  }

  /** The trailing report goes out last on the second session. */
  lemma TrailerSends(s: State, u: nat, id: string)
    requires Trails(s, u, id) && NamesOnce(s.threads[u])
    ensures var n := Run(s, u); u < |n.threads| && Apart(n, id) && Mum(n.threads[u], id)
  {
    var pc := s.threads[u];
    LogsGrow(s, u);
    LastAboutAppend(s.dc, pc.r, id);
    if pc.next.Resume? {
      TailIsDistinct(pc.r.order.terms.clOrdID, pc.next.todo);
    }
    hide LastAbout, Distinct;
  }

  /** All others being done, the trailing thread runs to its end. */
  lemma TrailerEnds(s: State, u: nat, id: string) returns (more: seq<Move>)
    requires BookInv(s) && Trails(s, u, id) && NamesOnce(s.threads[u])
    requires forall v :: 0 <= v < |s.threads| && v != u ==> s.threads[v].Done?
    ensures NoNewCommands(more) && Quiet(Onward(s, more)) && Apart(Onward(s, more), id)
  {
    hide BookInv, NamesOnce, Mum, Onward, Run, LastAbout;
    TrailerSends(s, u, id);
    RunKeepsBookInv(s, u);
    RunMovesOnly(s, u);
    var n := Run(s, u);
    var rest := ThreadEnds(n, u);
    MumThroughout(n, rest, u, id);
    more := [Step(u)] + rest;
    OnwardConcat(s, [Step(u)], rest);
    OneOnward(s, Step(u));
  }

  /** Converse: whenever a report about an order goes out on the first session while another is between its
      two sends, the run can end, with no new command, with nothing in flight and two different reports
      last on the two sessions. */
  lemma CrossingCanEndApart(ms: seq<Move>, t: nat, u: nat, id: string) returns (more: seq<Move>)
    requires Crosses(Reached(ms), t, u, id)
    ensures NoNewCommands(more)
    ensures var w := Reached(ms + [Step(t)] + more); Quiet(w) && Apart(w, id)
  {
    hide Inv, Reached, Trails, Run, Quiet, Apart, AllNameOnce, NamesOnce, Onward, Crosses;
    assert t < |Reached(ms).threads| by { CrossingThreads(Reached(ms), t, u, id); }
    var past := ms + [Step(t)];
    var s := Reached(past);
    ReachedInv(ms);
    ReachedMore(ms, Step(t));
    CrossingTrails(Reached(ms), t, u, id);
    TrailIsThere(s, u, id);
    ReachedInv(past);
    var others := ThreadsEnd(s, |s.threads|, u);
    TrailsOn(s, others, u, id);
    ReachedOnward(past, others);
    ReachedBook(past + others);
    ReachedNamesOnce(past + others);
    var w := Reached(past + others);
    assert NamesOnce(w.threads[u]) by { OneNamesOnce(w, u); }
    var last := TrailerEnds(w, u, id);
    more := others + last;
    ReachedOnward(past + others, last);
    assert past + others + last == past + more;
  }

  lemma CrossingThreads(s: State, t: nat, u: nat, id: string)
    requires Crosses(s, t, u, id)
    ensures t < |s.threads|
  {
  }

  lemma TrailIsThere(s: State, u: nat, id: string)
    requires Trails(s, u, id)
    ensures u < |s.threads|
  {
  }

  lemma OneNamesOnce(s: State, u: nat)
    requires AllNameOnce(s) && u < |s.threads|
    ensures NamesOnce(s.threads[u])
  {
  }

  /** Whatever the way the venue is used: some run ends, nothing in flight, with the two sessions' last
      reports about the order different, exactly when in some run a report about it goes out on the first
      session while another is between its two sends. */
  lemma SessionsEndApartExactlyWhen(runs: Runs, id: string)
    requires Natural(runs)
    ensures (exists ms :: runs(ms) && Quiet(Reached(ms)) && LastAbout(Reached(ms).oe, id) != LastAbout(Reached(ms).dc, id))
       <==> (exists ms, k: nat :: runs(ms) && k < |ms| && CrossingAt(ms, k, id))
  {
    hide Reached, LastAbout, Quiet, Crosses;
    if ms: seq<Move>, k: nat :| runs(ms) && k < |ms| && CrossingAt(ms, k, id) {
      var more := RunCanEndApart(runs, ms, k, id);
    }
    if ms: seq<Move> :|
      runs(ms) && Quiet(Reached(ms)) && LastAbout(Reached(ms).oe, id) != LastAbout(Reached(ms).dc, id)
    {
      hide CrossingAt;
      if NeverCrosses(ms, id) {
        SessionsEndAlike(ms, id);
      }
    }
  }

  /** The run up to the crossing, seen to such an end. */
  lemma RunCanEndApart(runs: Runs, ms: seq<Move>, k: nat, id: string) returns (w: seq<Move>)
    requires Natural(runs) && runs(ms) && k < |ms| && CrossingAt(ms, k, id)
    ensures runs(w) && Quiet(Reached(w)) && Apart(Reached(w), id)
  {
    hide Reached, Quiet, Crosses, Apart;
    var u: nat :| Crosses(Reached(ms[..k]), ms[k].thread, u, id);
    var more := CrossingCanEndApart(ms[..k], ms[k].thread, u, id);
    assert ms[..k + 1] == ms[..k] + [Step(ms[k].thread)];
    w := ms[..k + 1] + more;
  }
}
