/** The supervisor, which owns the one current initiator, and the watchdog that drives it. */
module Supervisors {
  import opened Watchdogs

  /** How building and starting an initiator turns out. */
  datatype Attempt = BuildFails | StartFails | Succeeds

  datatype StartError = AlreadyRunning | CannotBuild | CannotStart

  datatype StartResult = Started | NotStarted(why: StartError)

  /** The supervisor as a value; `stops` counts the initiators that were current when stopped. */
  datatype Supervision = Supervision(running: bool, starts: nat, stops: nat)
  {
    function Start(a: Attempt): Supervision {
      if running || a != Succeeds then this else Supervision(true, starts + 1, stops)
    }

    function Stop(): Supervision {
      if running then Supervision(false, starts, stops + 1) else this
    }

    function Restart(a: Attempt): Supervision {
      Stop().Start(a)
    }

    predicate Balanced() {
      starts == stops + if running then 1 else 0
    }
  }

  const IDLE := Supervision(false, 0, 0)

  class Initiator {
    var running: bool

    constructor ()
      ensures !running
    {
      running := false;
    }

    method Start(ok: bool)
      modifies this
      ensures running == ok
    {
      running := ok;
    }

    method Stop()
      modifies this
      ensures !running
    {
      running := false;
    }
  }

  class Supervisor {
    var current: Initiator?
    var starts: nat
    ghost var stops: nat
    /** Every initiator this supervisor has built. */
    ghost var built: set<Initiator>

    /** At most one initiator runs, and it is the current one. */
    ghost predicate Valid()
      reads this, built
    {
      && (current != null ==> current in built)
      && (forall i :: i in built ==> (i.running <==> i == current))
      && State().Balanced()
    }

    ghost function State(): Supervision
      reads this
    {
      Supervision(current != null, starts, stops)
    }

    constructor ()
      ensures Valid() && State() == IDLE && built == {}
    {
      current, starts, stops, built := null, 0, 0, {};
    }

    method Start(a: Attempt) returns (r: StartResult)
      requires Valid()
      modifies this, built
      ensures Valid() && State() == old(State()).Start(a) && fresh(built - old(built)) && old(built) <= built
      ensures r == if old(State()).running then NotStarted(AlreadyRunning)
                   else match a
                        case BuildFails => NotStarted(CannotBuild)
                        case StartFails => NotStarted(CannotStart)
                        case Succeeds => Started
    {
      if current != null {
        return NotStarted(AlreadyRunning);
      }
      if a == BuildFails {
        return NotStarted(CannotBuild);
      }
      var init := new Initiator();
      init.Start(a == Succeeds);
      built := built + {init};
      if a == StartFails {
        return NotStarted(CannotStart);
      }
      current := init;
      starts := starts + 1;
      r := Started;
    }

    method Stop()
      requires Valid()
      modifies this, built
      ensures Valid() && State() == old(State()).Stop() && built == old(built)
    {
      if current == null {
        return;
      }
      current.Stop();
      current := null;
      stops := stops + 1;
    }

    method Restart(a: Attempt) returns (r: StartResult)
      requires Valid()
      modifies this, built
      ensures Valid() && State() == old(State()).Restart(a) && fresh(built - old(built)) && old(built) <= built
      ensures r == match a
                   case BuildFails => NotStarted(CannotBuild)
                   case StartFails => NotStarted(CannotStart)
                   case Succeeds => Started
    {
      Stop();
      r := Start(a);
    }
  }

  /** A watchdog and the supervisor its restarts go to. */
  datatype Guarded = Guarded(watch: Watch, sup: Supervision)

  /** `attempt` is how the rebuild turns out should the event make the watchdog fire. */
  datatype Happening =
    | Watched(event: Event, attempt: Attempt)
    | ManualStart(attempt: Attempt)
    | ManualStop

  function After(g: Guarded, timeout: int, h: Happening): Guarded {
    match h
    case Watched(e, a) =>
      Guarded(AfterEvent(g.watch, timeout, e), if Firing(g.watch, timeout, e) then g.sup.Restart(a) else g.sup)
    case ManualStart(a) => g.(sup := g.sup.Start(a))
    case ManualStop => g.(sup := g.sup.Stop())
  }

  function Ran(g: Guarded, timeout: int, hs: seq<Happening>): Guarded {
    if hs == [] then g else After(Ran(g, timeout, hs[..|hs| - 1]), timeout, hs[|hs| - 1])
  }

  /** Whatever happens, starts and stops account for the one initiator that may be running. */
  lemma {:induction false} AlwaysBalanced(g: Guarded, timeout: int, hs: seq<Happening>)
    requires g.sup.Balanced()
    ensures Ran(g, timeout, hs).sup.Balanced()
  {
    if hs != [] {
      AlwaysBalanced(g, timeout, hs[..|hs| - 1]);
    }
  }

  ghost predicate WatchdogOnly(hs: seq<Happening>) {
    forall i :: 0 <= i < |hs| ==> hs[i].Watched?
  }

  /** Left to the watchdog, each start beyond the first was paid for by a firing. */
  lemma {:induction false} StartsAreFirings(g: Guarded, timeout: int, hs: seq<Happening>)
    requires WatchdogOnly(hs) && g.sup.starts <= 1 + g.watch.fired
    ensures Ran(g, timeout, hs).sup.starts <= 1 + Ran(g, timeout, hs).watch.fired
  {
    if hs != [] {
      StartsAreFirings(g, timeout, hs[..|hs| - 1]);
    }
  }

  /** Happening `i` of the run makes the watchdog fire. */
  predicate FiresIn(g: Guarded, timeout: int, hs: seq<Happening>, i: nat)
    requires i < |hs|
  {
    hs[i].Watched? && Firing(Ran(g, timeout, hs[..i]).watch, timeout, hs[i].event)
  }

  /** Left to the watchdog, an initiator runs exactly when the last rebuild worked out, however many
      failed before it; with no firing yet, exactly when one ran at the beginning. */
  lemma {:induction false} LastRebuildDecides(g: Guarded, timeout: int, hs: seq<Happening>, last: nat)
    requires WatchdogOnly(hs)
    requires last < |hs| && FiresIn(g, timeout, hs, last)
    requires forall i: nat :: last < i < |hs| ==> !FiresIn(g, timeout, hs, i)
    ensures Ran(g, timeout, hs).sup.running <==> hs[last].attempt == Succeeds
  {
    var n := |hs| - 1;
    var before := hs[..n];
    if last < n {
      assert before[..last] == hs[..last];
      forall i: nat | last < i < n ensures !FiresIn(g, timeout, before, i) {
        assert before[..i] == hs[..i];
        assert !FiresIn(g, timeout, hs, i);
      }
      LastRebuildDecides(g, timeout, before, last);
      assert !FiresIn(g, timeout, hs, n);
    }
  }

  lemma {:induction false} NoFiringChangesNothing(g: Guarded, timeout: int, hs: seq<Happening>)
    requires WatchdogOnly(hs)
    requires forall i: nat :: i < |hs| ==> !FiresIn(g, timeout, hs, i)
    ensures Ran(g, timeout, hs).sup == g.sup
  {
    if hs != [] {
      var n := |hs| - 1;
      var before := hs[..n];
      forall i: nat | i < n ensures !FiresIn(g, timeout, before, i) {
        assert before[..i] == hs[..i];
        assert !FiresIn(g, timeout, hs, i);
      }
      NoFiringChangesNothing(g, timeout, before);
      assert !FiresIn(g, timeout, hs, n);
    }
  }
}
