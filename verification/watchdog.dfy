/** The watchdog: what feeds it, when it fires, and what it can never do. Times are in
    nanoseconds. */
module Watchdogs {

  /** Inbound traffic, by what it says about liveness. */
  datatype InboundClass = InboundAdmin | InboundApp

  const SECOND: int := 1_000_000_000

  /** Go's integer division: towards zero. */
  function Quarter(x: int): int {
    if x < 0 then -(-x / 4) else x / 4
  }

  /** How often the check runs. */
  function TickInterval(interval: int, timeout: int): (every: int)
    ensures every > 0
    ensures interval > 0 ==> every == interval
    ensures interval <= 0 && timeout >= 4 ==> 4 * every <= timeout < 4 * every + 4
    ensures interval <= 0 && timeout < 4 ==> every == 1_000_000_000
  {
    if interval > 0 then interval
    else if Quarter(timeout) > 0 then Quarter(timeout)
    else SECOND
  }

  datatype Watch = Watch(lastApp: int, fired: nat)

  predicate Fires(w: Watch, timeout: int, now: int, active: bool) {
    active && now - w.lastApp >= timeout
  }

  function AfterTick(w: Watch, timeout: int, now: int, active: bool): Watch {
    if Fires(w, timeout, now, active) then Watch(now, w.fired + 1) else w
  }

  class Watchdog {
    const timeout: int
    const interval: int
    var lastApp: int
    var fired: nat

    constructor (timeout: int, interval: int)
      ensures this.timeout == timeout && this.interval == interval && fired == 0
    {
      this.timeout, this.interval, fired := timeout, interval, 0;
    }

    function State(): Watch
      reads this
    {
      Watch(lastApp, fired)
    }

    method Notify(now: int)
      modifies this`lastApp
      ensures State() == old(State()).(lastApp := now)
    {
      lastApp := now;
    }

    /** Begins watching; the result is the ticker's period. */
    method Start(now: int) returns (every: int)
      modifies this`lastApp
      ensures State() == old(State()).(lastApp := now)
      ensures every == TickInterval(interval, timeout)
    {
      lastApp := now;
      every := interval;
      if every <= 0 {
        every := Quarter(timeout);
      }
      if every <= 0 {
        every := SECOND;
      }
    }

    /** One tick; `active` says whether silence is suspicious now. The result asks for a restart. */
    method Check(now: int, active: bool) returns (restart: bool)
      modifies this`lastApp, this`fired
      ensures restart <==> Fires(old(State()), timeout, now, active)
      ensures State() == AfterTick(old(State()), timeout, now, active)
    {
      if !active {
        return false;
      }
      if now - lastApp < timeout {
        return false;
      }
      lastApp := now;
      fired := fired + 1;
      restart := true;
    }
  }

  /** The shared half of a client application: who is told about inbound traffic. */
  class Client {
    var onInbound: seq<Watchdog>

    constructor ()
      ensures onInbound == []
    {
      onInbound := [];
    }

    /** WatchClient: the watchdog subscribes to this client's traffic. */
    method Watch(w: Watchdog)
      modifies this
      ensures onInbound == old(onInbound) + [w]
    {
      onInbound := onInbound + [w];
    }

    /** Admin traffic reaches every subscriber and moves none of them. */
    method NoteInbound(traffic: InboundClass, now: int)
      modifies onInbound
      ensures traffic == InboundAdmin ==> unchanged(set w <- onInbound)
      ensures traffic == InboundApp ==> forall w <- onInbound :: w.State() == old(w.State()).(lastApp := now)
    {
      for i := 0 to |onInbound|
        invariant traffic == InboundAdmin ==> unchanged(set w <- onInbound)
        invariant forall w <- onInbound :: w.fired == old(w.fired)
        invariant traffic == InboundApp ==> forall k :: 0 <= k < i ==> onInbound[k].lastApp == now
      {
        if traffic == InboundApp {
          onInbound[i].Notify(now);
        }
      }
    }

    method FromAdmin(now: int)
      modifies onInbound
      ensures unchanged(set w <- onInbound)
    {
      NoteInbound(InboundAdmin, now);
    }
  }

  /** What can happen to a running watchdog. A tick carries the time it was sent, which may be
      before the time it is taken. */
  datatype Event =
    | App(at: int)
    | Admin(at: int)
    | Tick(at: int, sent: int, active: bool)

  function AfterEvent(w: Watch, timeout: int, e: Event): Watch {
    match e
    case App(at) => w.(lastApp := at)
    case Admin(_) => w
    case Tick(_, sent, active) => AfterTick(w, timeout, sent, active)
  }

  predicate Firing(w: Watch, timeout: int, e: Event) {
    e.Tick? && Fires(w, timeout, e.sent, e.active)
  }

  /** The state after a run that Start began at `start`. */
  function AfterRun(start: int, timeout: int, es: seq<Event>): Watch {
    if es == [] then Watch(start, 0)
    else AfterEvent(AfterRun(start, timeout, es[..|es| - 1]), timeout, es[|es| - 1])
  }

  predicate FiresAt(start: int, timeout: int, es: seq<Event>, i: nat)
    requires i < |es|
  {
    Firing(AfterRun(start, timeout, es[..i]), timeout, es[i])
  }

  /** Time does not run backwards, and a tick is not taken before it was sent. */
  ghost predicate Timely(start: int, es: seq<Event>) {
    && (forall i :: 0 <= i < |es| ==> start <= es[i].at)
    && (forall i, j :: 0 <= i < j < |es| ==> es[i].at <= es[j].at)
    && (forall i :: 0 <= i < |es| && es[i].Tick? ==> es[i].sent <= es[i].at)
  }

  lemma TimelyPrefix(start: int, es: seq<Event>, n: nat)
    requires Timely(start, es) && n <= |es|
    ensures Timely(start, es[..n])
  {
  }

  /** One event moves lastApp to an app message, or forward to the tick of a firing, or not at all. */
  lemma LastAppMoves(w: Watch, timeout: int, e: Event)
    ensures AfterEvent(w, timeout, e).lastApp
         == if e.App? then e.at else if e.Tick? && Firing(w, timeout, e) then e.sent else w.lastApp
    ensures Firing(w, timeout, e) ==> e.Tick? && w.lastApp + timeout <= e.sent
  {
  }

  /** In time, an event does not move lastApp back, nor past itself. */
  lemma LastAppAdvances(start: int, timeout: int, es: seq<Event>, w: Watch)
    requires timeout > 0 && Timely(start, es) && es != []
    requires start <= w.lastApp <= if |es| > 1 then es[|es| - 2].at else start
    ensures w.lastApp <= AfterEvent(w, timeout, es[|es| - 1]).lastApp <= es[|es| - 1].at
  {
    hide AfterEvent, Fires;
    LastAppMoves(w, timeout, es[|es| - 1]);
  }

  /** What lastApp stands for: the start, an app message or the tick of a firing, whichever came
      last; and it never lies in the future. */
  lemma {:induction false} LastAppIsLatest(start: int, timeout: int, es: seq<Event>)
    requires timeout > 0 && Timely(start, es)
    ensures var last := AfterRun(start, timeout, es).lastApp;
      && start <= last
      && (es == [] ==> last == start)
      && (es != [] ==> last <= es[|es| - 1].at)
      && (forall i :: 0 <= i < |es| && es[i].App? ==> es[i].at <= last)
      && (forall i: nat :: i < |es| && FiresAt(start, timeout, es, i) ==> es[i].sent <= last)
  {
    hide AfterEvent, Fires, Timely;
    if es != [] {
      var n := |es| - 1;
      var w, last := AfterRun(start, timeout, es[..n]), AfterRun(start, timeout, es).lastApp;
      TimelyPrefix(start, es, n);
      LastAppIsLatest(start, timeout, es[..n]);
      LastAppAdvances(start, timeout, es, w);
      LastAppMoves(w, timeout, es[n]);
      forall i | 0 <= i < |es| && es[i].App? ensures es[i].at <= last {
        assert i < n ==> es[..n][i] == es[i];
      }
      forall i: nat | i < |es| && FiresAt(start, timeout, es, i) ensures es[i].sent <= last {
        if i < n {
          assert es[..n][..i] == es[..i];
          assert FiresAt(start, timeout, es[..n], i);
        }
      }
    }
  }

  /** lastApp never goes back. */
  lemma {:induction false} LastAppNeverGoesBack(start: int, timeout: int, es: seq<Event>, m: nat)
    requires timeout > 0 && Timely(start, es) && m <= |es|
    ensures AfterRun(start, timeout, es[..m]).lastApp <= AfterRun(start, timeout, es).lastApp
  {
    if m == |es| {
      assert es[..m] == es;
    } else {
      var n := |es| - 1;
      TimelyPrefix(start, es, n);
      assert es[..n][..m] == es[..m];
      LastAppNeverGoesBack(start, timeout, es[..n], m);
      LastAppIsLatest(start, timeout, es[..n]);
    }
  }

  /** Every firing ends at least a whole timeout without an app message, without another firing, and
      since the start; and silence was suspicious at that tick. */
  lemma FiringEndsSilence(start: int, timeout: int, es: seq<Event>, i: nat)
    requires timeout > 0 && Timely(start, es) && i < |es| && FiresAt(start, timeout, es, i)
    ensures es[i].active && start + timeout <= es[i].sent
    ensures forall j :: 0 <= j < i && es[j].App? ==> es[j].at + timeout <= es[i].sent
    ensures forall j: nat :: j < i && FiresAt(start, timeout, es, j) ==> es[j].sent + timeout <= es[i].sent
  {
    TimelyPrefix(start, es, i);
    LastAppIsLatest(start, timeout, es[..i]);
    forall j: nat | j < i && FiresAt(start, timeout, es, j) ensures es[j].sent + timeout <= es[i].sent {
      assert es[..i][..j] == es[..j];
      assert FiresAt(start, timeout, es[..i], j);
    }
    forall j | 0 <= j < i && es[j].App? ensures es[j].at + timeout <= es[i].sent {
      assert es[..i][j] == es[j];
    }
  }

  /** The lastApp of a run is the start, an app message or the tick of a firing. */
  lemma {:induction false} LastAppIsOneOf(start: int, timeout: int, es: seq<Event>)
    ensures var last := AfterRun(start, timeout, es).lastApp;
      || last == start
      || (exists j :: 0 <= j < |es| && es[j].App? && es[j].at == last)
      || (exists j: nat :: j < |es| && FiresAt(start, timeout, es, j) && es[j].sent == last)
  {
    if es != [] {
      var n := |es| - 1;
      LastAppIsOneOf(start, timeout, es[..n]);
      var last := AfterRun(start, timeout, es[..n]).lastApp;
      if j :| 0 <= j < n && es[..n][j].App? && es[..n][j].at == last {
        assert es[j].App?;
      }
      if j: nat :| j < n && FiresAt(start, timeout, es[..n], j) && es[..n][j].sent == last {
        assert es[..n][..j] == es[..j];
        assert FiresAt(start, timeout, es, j);
      }
      assert es[n].App? || FiresAt(start, timeout, es, n) || AfterRun(start, timeout, es).lastApp == last;
    }
  }

  /** A tick fires exactly when silence is suspicious at it and a whole timeout has passed since the start, since
      every app message and since every earlier firing; admin traffic has no say. */
  lemma FiresExactlyWhen(start: int, timeout: int, es: seq<Event>, i: nat)
    requires timeout > 0 && Timely(start, es) && i < |es|
    ensures FiresAt(start, timeout, es, i) <==>
      && es[i].Tick? && es[i].active && start + timeout <= es[i].sent
      && (forall j :: 0 <= j < i && es[j].App? ==> es[j].at + timeout <= es[i].sent)
      && (forall j: nat :: j < i && FiresAt(start, timeout, es, j) ==> es[j].sent + timeout <= es[i].sent)
  {
    if FiresAt(start, timeout, es, i) {
      FiringEndsSilence(start, timeout, es, i);
    } else {
      LastAppIsOneOf(start, timeout, es[..i]);
      var last := AfterRun(start, timeout, es[..i]).lastApp;
      if j :| 0 <= j < i && es[..i][j].App? && es[..i][j].at == last {
        assert es[j].App?;
      }
      if j: nat :| j < i && FiresAt(start, timeout, es[..i], j) && es[..i][j].sent == last {
        assert es[..i][..j] == es[..j];
        assert FiresAt(start, timeout, es, j);
      }
    }
  }

  /** The number of firings is bounded by the time watched divided by the timeout. */
  lemma {:induction false} FiringsAreRare(start: int, timeout: int, es: seq<Event>)
    requires timeout > 0 && Timely(start, es)
    ensures var w := AfterRun(start, timeout, es); start + w.fired * timeout <= w.lastApp
  {
    if es != [] {
      var n := |es| - 1;
      TimelyPrefix(start, es, n);
      FiringsAreRare(start, timeout, es[..n]);
      LastAppIsLatest(start, timeout, es[..n]);
      var before, after := AfterRun(start, timeout, es[..n]), AfterRun(start, timeout, es);
      assert (before.fired + 1) * timeout == before.fired * timeout + timeout;
      assert after.fired == before.fired || after.fired == before.fired + 1;
    }
  }

  /** Ticks keep coming: the first within a period of the start, and no gap exceeds the period. */
  ghost predicate Ticking(start: int, every: int, ticks: seq<Event>) {
    && (forall k :: 0 <= k < |ticks| ==> ticks[k].Tick? && ticks[k].active)
    && (forall k :: 0 < k < |ticks| ==> ticks[k].sent <= ticks[k - 1].sent + every)
    && (ticks != [] ==> ticks[0].sent <= start + every)
  }

  /** Under unbroken suspicious silence the watchdog fires, and before the timeout and one more
      period are over. `w` is the state the silence begins in, at `from`; time the window was
      closed before that counts as silence. */
  lemma {:induction false} SilenceIsNoticed(w: Watch, timeout: int, every: int, from: int, ticks: seq<Event>)
    returns (k: nat)
    requires timeout > 0 && every > 0 && ticks != [] && Ticking(from, every, ticks)
    requires ticks[|ticks| - 1].sent >= w.lastApp + timeout
    ensures k < |ticks| && Firing(w, timeout, ticks[k])
    ensures forall j :: 0 <= j < k ==> !Firing(w, timeout, ticks[j])
    ensures from < w.lastApp + timeout ==> ticks[k].sent < w.lastApp + timeout + every
    ensures from >= w.lastApp + timeout ==> ticks[k].sent <= from + every
    decreases |ticks|
  {
    if Firing(w, timeout, ticks[0]) {
      k := 0;
    } else {
      assert |ticks| > 1;
      var rest := ticks[1..];
      assert Ticking(ticks[0].sent, every, rest);
      k := SilenceIsNoticed(w, timeout, every, ticks[0].sent, rest);
      k := k + 1;
      forall j | 0 <= j < k ensures !Firing(w, timeout, ticks[j]) {
        if j > 0 {
          assert ticks[j] == rest[j - 1];
        }
      }
    }
  }

  function WithoutAdmin(es: seq<Event>): seq<Event> {
    if es == [] then [] else
      WithoutAdmin(es[..|es| - 1]) + if es[|es| - 1].Admin? then [] else [es[|es| - 1]]
  }

  /** The firings of a run, by the tick that fired. */
  function FiringsOf(start: int, timeout: int, es: seq<Event>): seq<Event> {
    if es == [] then [] else
      FiringsOf(start, timeout, es[..|es| - 1])
      + if FiresAt(start, timeout, es, |es| - 1) then [es[|es| - 1]] else []
  }

  /** Admin traffic does not matter: two runs that differ only in it end alike and fire alike. */
  lemma AdminTrafficIsIgnored(start: int, timeout: int, es: seq<Event>, fs: seq<Event>)
    requires WithoutAdmin(es) == WithoutAdmin(fs)
    ensures AfterRun(start, timeout, es) == AfterRun(start, timeout, fs)
    ensures FiringsOf(start, timeout, es) == FiringsOf(start, timeout, fs)
  {
    AdminTrafficDrops(start, timeout, es);
    AdminTrafficDrops(start, timeout, fs);
  }

  lemma {:induction false} AdminTrafficDrops(start: int, timeout: int, es: seq<Event>)
    ensures AfterRun(start, timeout, es) == AfterRun(start, timeout, WithoutAdmin(es))
    ensures FiringsOf(start, timeout, es) == FiringsOf(start, timeout, WithoutAdmin(es))
  {
    if es != [] {
      var before := es[..|es| - 1];
      AdminTrafficDrops(start, timeout, before);
      var kept, e := WithoutAdmin(before), es[|es| - 1];
      if e.Admin? {
        assert WithoutAdmin(es) == kept;
      } else {
        assert WithoutAdmin(es) == kept + [e];
        assert (kept + [e])[..|kept|] == kept;
      }
    }
  }
}
