/** The drop-copy consumer: a log whose ExecIDs do not repeat is recorded once, in order, however
    often suffixes of it are sent again. */
module ExactlyOnce {
  import opened Orders
  import opened Identifiers
  import opened Messages
  import opened Venue
  import opened Runs
  import opened Clients
  import Recovery

  /** A recorded report, whether first seen live or in a replay. */
  function Content(er: ExecReport): DcReport {
    DcReport(er.execID, er.clOrdID, er.orderID, er.execType, er.ordStatus, false)
  }

  function Contents(ers: seq<ExecReport>): (rs: seq<DcReport>)
    ensures |rs| == |ers| && forall i :: 0 <= i < |ers| ==> rs[i] == Content(ers[i])
  {
    seq(|ers|, i requires 0 <= i < |ers| => Content(ers[i]))
  }

  function Erase(rs: seq<DcReport>): (es: seq<DcReport>)
    ensures |es| == |rs| && forall i :: 0 <= i < |rs| ==> es[i] == rs[i].(replayed := false)
  {
    seq(|rs|, i requires 0 <= i < |rs| => rs[i].(replayed := false))
  }

  function ExecIds(ers: seq<ExecReport>): set<string> {
    set er <- ers :: er.execID
  }

  lemma ExecIdsConcat(a: seq<ExecReport>, b: seq<ExecReport>)
    ensures ExecIds(a + b) == ExecIds(a) + ExecIds(b)
  {
  }

  /** Each ExecID is new where it appears. */
  ghost predicate Fresh(ers: seq<ExecReport>) {
    forall k :: 0 <= k < |ers| ==> ers[k].execID !in ExecIds(ers[..k])
  }

  lemma {:induction false} DeliveredIdsAreIssued(issued: seq<Issued>, x: string)
    requires Recovery.NumberedFrom1(issued) && x in ExecIds(Delivered(issued))
    ensures Recovery.IdAmong(x, |issued|)
  {
    hide ExecId, Build;
    var n := |issued| - 1;
    var last := issued[n];
    if !last.dropped {
      ExecIdsConcat(Delivered(issued[..n]), [Build(last.report)]);
      BuiltId(last.report);
    } else {
      assert Delivered(issued[..n]) + [] == Delivered(issued[..n]);
    }
    if !last.dropped && x == last.report.execID {
      assert x == ExecId(n + 1);
    } else {
      DeliveredIdsAreIssued(issued[..n], x);
    }
  }

  lemma BuiltId(r: Report)
    ensures Build(r).execID == r.execID && ExecIds([Build(r)]) == {r.execID}
  {
    assert Build(r) in [Build(r)];
  }

  lemma {:induction false} DeliveredIsFresh(issued: seq<Issued>)
    requires Recovery.NumberedFrom1(issued)
    ensures Fresh(Delivered(issued))
  {
    hide ExecId, Build, ExecIds;
    if issued != [] {
      var n := |issued| - 1;
      var before, last := Delivered(issued[..n]), issued[n];
      DeliveredIsFresh(issued[..n]);
      var all := Delivered(issued);
      forall k | 0 <= k < |all| ensures all[k].execID !in ExecIds(all[..k]) {
        if k < |before| {
          assert all[..k] == before[..k];
        } else {
          assert all[..k] == before;
          BuiltId(last.report);
          if all[k].execID in ExecIds(before) {
            DeliveredIdsAreIssued(issued[..n], all[k].execID);
            var j: nat :| 1 <= j <= n && all[k].execID == ExecId(j);
            VenueIdsInjective(j, n + 1);
          }
        }
      }
    }
  }

  /** The consumer takes a stretch of the log. */
  function DcTake(s: DcState, slots: seq<Slot>, possDup: bool): DcState {
    if slots == [] then s else
      var before := DcTake(s, slots[..|slots| - 1], possDup);
      match slots[|slots| - 1]
      case Hole => before
      case Sent(er) => DcReceive(before, FieldsOf(er), possDup)
  }

  /** What was seen before is counted and dropped. */
  lemma {:induction false} SeenIsDropped(s: DcState, slots: seq<Slot>, possDup: bool)
    requires ExecIds(Sents(slots)) <= s.seen
    ensures DcTake(s, slots, possDup) == s.(dupes := s.dupes + |Sents(slots)|)
  {
    if slots != [] {
      var before := slots[..|slots| - 1];
      match slots[|slots| - 1]
      case Hole =>
        assert Sents(slots) == Sents(before);
        SeenIsDropped(s, before, possDup);
      case Sent(er) =>
        assert Sents(slots) == Sents(before) + [er];
        ExecIdsConcat(Sents(before), [er]);
        assert er in [er] && er.execID in ExecIds([er]);
        SeenIsDropped(s, before, possDup);
    }
  }

  /** The consumer holds the contents of `ers`, once each and in order. */
  ghost predicate Holds(s: DcState, ers: seq<ExecReport>) {
    Erase(s.reports) == Contents(ers) && s.seen == ExecIds(ers)
  }

  /** What was not seen before is appended. */
  lemma {:induction false} NewIsRecorded(s: DcState, ers: seq<ExecReport>, slots: seq<Slot>, possDup: bool)
    requires Holds(s, ers) && Fresh(ers + Sents(slots))
    ensures Holds(DcTake(s, slots, possDup), ers + Sents(slots))
    ensures DcTake(s, slots, possDup).dupes == s.dupes
  {
    hide Holds;
    if slots == [] {
      assert ers + Sents(slots) == ers;
    } else {
      var before := slots[..|slots| - 1];
      match slots[|slots| - 1]
      case Hole =>
        assert Sents(slots) == Sents(before);
        NewIsRecorded(s, ers, before, possDup);
      case Sent(er) =>
        var all := ers + Sents(slots);
        assert Sents(slots) == Sents(before) + [er];
        assert all == ers + Sents(before) + [er];
        FreshPrefix(all, |all| - 1);
        assert all[..|all| - 1] == ers + Sents(before);
        NewIsRecorded(s, ers, before, possDup);
        RecordOne(DcTake(s, before, possDup), ers + Sents(before), er, possDup);
    }
  }

  lemma FreshPrefix(ers: seq<ExecReport>, n: nat)
    requires Fresh(ers) && n <= |ers|
    ensures Fresh(ers[..n])
    ensures n < |ers| ==> ers[n].execID !in ExecIds(ers[..n])
  {
    hide ExecIds;
    forall k | 0 <= k < n ensures ers[..n][k].execID !in ExecIds(ers[..n][..k]) {
      assert ers[..n][..k] == ers[..k];
    }
  }

  lemma RecordOne(s: DcState, ers: seq<ExecReport>, er: ExecReport, possDup: bool)
    requires Holds(s, ers) && er.execID !in ExecIds(ers)
    ensures Holds(DcReceive(s, FieldsOf(er), possDup), ers + [er])
    ensures DcReceive(s, FieldsOf(er), possDup).dupes == s.dupes
  {
    ExecIdsConcat(ers, [er]);
    assert ExecIds([er]) == {er.execID} by { assert er in [er]; }
    var r := DcRecord(FieldsOf(er), possDup);
    assert Erase(s.reports + [r]) == Erase(s.reports) + [r.(replayed := false)];
    assert Contents(ers + [er]) == Contents(ers) + [Content(er)];
  }

  lemma {:induction false} TakeConcat(s: DcState, a: seq<Slot>, b: seq<Slot>, possDup: bool)
    ensures DcTake(s, a + b, possDup) == DcTake(DcTake(s, a, possDup), b, possDup)
  {
    if b == [] {
      assert a + b == a;
    } else {
      TakeConcat(s, a, b[..|b| - 1], possDup);
      assert (a + b)[..|a + b| - 1] == a + b[..|b| - 1];
    }
  }

  /** What it records of a stretch it marks as the stretch was: live, or sent again. */
  lemma {:induction false} TakingMarks(s: DcState, slots: seq<Slot>, possDup: bool)
    ensures var n := DcTake(s, slots, possDup);
      && s.reports <= n.reports
      && forall k :: |s.reports| <= k < |n.reports| ==> n.reports[k].replayed == possDup
  {
    if slots != [] {
      TakingMarks(s, slots[..|slots| - 1], possDup);
    }
  }

  /** A stretch the consumer has taken, then one it has not. */
  lemma TakeStretch(c: DcState, log: seq<Slot>, next: nat, from: nat, to: nat, possDup: bool)
    requires Fresh(Sents(log)) && from <= next <= to <= |log| && Holds(c, Sents(log[..next]))
    ensures var taken, n := Sents(log[from..next]), DcTake(c, log[from..to], possDup);
      Holds(n, Sents(log[..to])) && n.dupes == c.dupes + |taken|
  {
    hide Fresh, ExecIds, Sents, Contents, Erase;
    var old', new' := log[from..next], log[next..to];
    assert log[from..to] == old' + new';
    TakeConcat(c, old', new', possDup);
    assert log[..next] == log[..from] + old';
    Recovery.SentsConcat(log[..from], old');
    ExecIdsConcat(Sents(log[..from]), Sents(old'));
    SeenIsDropped(c, old', possDup);
    var seen := DcTake(c, old', possDup);
    assert log[..to] == log[..next] + new' && log == log[..to] + log[to..];
    Recovery.SentsConcat(log[..next], new');
    Recovery.SentsConcat(log[..to], log[to..]);
    FreshPrefix(Sents(log), |Sents(log[..to])|);
    assert Sents(log)[..|Sents(log[..to])|] == Sents(log[..to]);
    NewIsRecorded(seen, Sents(log[..next]), new', possDup);
  }
}
