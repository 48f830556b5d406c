/** Two detectors of the same reports: invariant (v), by ingest time, and the
    timeout row, by position. */
module Detectors {
  import opened Attach
  import opened Causes
  import opened Commands
  import opened Conservation
  import opened Events
  import opened Grade
  import opened Logs
  import opened Options
  import opened Pushdown

  /** Ingest time and position order the log alike, strictly. */
  ghost predicate ClockRises(events: seq<Event>) {
    && Positioned(events)
    && forall i, j :: 0 <= i < j < |events| ==> events[i].ingest < events[j].ingest
  }

  lemma SameOrder(events: seq<Event>, a: Event, b: Event)
    requires ClockRises(events) && a in events && b in events
    ensures a.ingest < b.ingest <==> a.position < b.position
    ensures a.ingest == b.ingest <==> a == b
  {
    var i :| 0 <= i < |events| && events[i] == a;
    var j :| 0 <= j < |events| && events[j] == b;
    assert i < j ==> events[i].ingest < events[j].ingest;
    assert j < i ==> events[j].ingest < events[i].ingest;
  }

  /** One report: flagged by (v) exactly when it is a miss inside the timeout row's window. */
  lemma {:induction false} SameReport(events: seq<Event>, c: Chain, r: Event)
    requires ClockRises(events) && r in events && c.issue in events && c.issue.kind.CommandIssued?
    requires c.confirmed == [] && |c.timedOut| > 0 && ExpectationOf(c.CommandType()).Some?
    requires c.timedOut[0].row in events && c.timedOut[0].row.kind.CommandTimedOut?
    requires |c.Terminals()| > 0 && c.Terminals()[0].row == c.timedOut[0].row
    ensures var (attribute, expected) := ExpectationOf(c.CommandType()).value;
      Flags(c, r) <==>
        && r.subject == c.Subject()
        && Inside(r, c.issue.position, c.timedOut[0].row.position) && Miss(r, attribute, expected)
  {
    hide Chain.Terminals;
    SameOrder(events, c.issue, r);
    SameOrder(events, r, c.timedOut[0].row);
  }

  /** For a command on the timeout arm whose timeout is its first terminal, (v)
      flags as many reports as the row counts as mismatched in the window. */
  lemma {:induction false} DetectorsCoincide(events: seq<Event>, fromUs: int, graceUs: int, id: Id)
    requires ClockRises(events)
    requires id in BuildBook(events, fromUs, graceUs).chains
    requires var c := BuildBook(events, fromUs, graceUs).chains[id];
      && c.OnTimeoutArm() && ExpectationOf(c.CommandType()).Some?
      && |c.Terminals()| > 0 && c.Terminals()[0].row == c.timedOut[0].row
    ensures var c := BuildBook(events, fromUs, graceUs).chains[id];
      RowRule(c, StatesOf(events, c.Subject())).mismatched == Some(|FlaggedBy(c, events)|)
  {
    var b := BuildBook(events, fromUs, graceUs);
    var c := b.chains[id];
    BookIssues(events, fromUs, graceUs);
    RowsFiled(events, fromUs, graceUs);
    BookRows(events, fromUs, graceUs, id);
    assert c.timedOut[0] in c.timedOut;
    assert c.timedOut[0].row in c.Rows() by { RowsHold(c, c.timedOut[0]); }
    ArmMismatches(events, c);
  }

  lemma RowsHold(c: Chain, p: Placed)
    requires p in c.timedOut
    ensures p.row in c.Rows()
  {
    var i :| 0 <= i < |c.timedOut| && c.timedOut[i] == p;
    assert RowsOf(c.timedOut)[i] == p.row;
  }

  lemma ArmMismatches(events: seq<Event>, c: Chain)
    requires ClockRises(events) && c.issue in events && c.issue.kind.CommandIssued?
    requires c.OnTimeoutArm() && ExpectationOf(c.CommandType()).Some?
    requires c.timedOut[0].row in events && c.timedOut[0].row.kind.CommandTimedOut?
    requires |c.Terminals()| > 0 && c.Terminals()[0].row == c.timedOut[0].row
    ensures RowRule(c, StatesOf(events, c.Subject())).mismatched == Some(|FlaggedBy(c, events)|)
  {
    TimeoutArmShape(c);
    var (attribute, expected) := ExpectationOf(c.CommandType()).value;
    var issue, end := c.issue.position, c.timedOut[0].row.position;
    var states := StatesOf(events, c.Subject());
    SelectSelect(events, (e: Event) => IsStateRow(e) && e.subject == c.Subject(),
                 (e: Event) => Inside(e, issue, end) && Miss(e, attribute, expected),
                 (e: Event) => e.subject == c.Subject() && Inside(e, issue, end) && Miss(e, attribute, expected));
    forall r | r in events
      ensures Flags(c, r) <==> r.subject == c.Subject() && Inside(r, issue, end) && Miss(r, attribute, expected)
    {
      SameReport(events, c, r);
    }
    hide Chain.Terminals, Chain.OnTimeoutArm, Flags;
    SelectSame(events, (r: Event) => Flags(c, r),
               (e: Event) => e.subject == c.Subject() && Inside(e, issue, end) && Miss(e, attribute, expected));
    assert SeenRule(states, issue, end, attribute, expected).mismatched == |FlaggedBy(c, events)|;
    hide CauseRule, NewestBefore, NewestReadable, SeenRule;
  }

  lemma {:induction false} HeldHas(chains: map<Id, Chain>, ids: seq<Id>, id: Id, e: Event)
    requires id in ids && id in chains && e in chains[id].Rows()
    ensures e in Held(chains, ids)
  {
    if ids[|ids| - 1] != id { HeldHas(chains, ids[..|ids| - 1], id, e); }
  }

  /** Every attached row is a row of the log. */
  lemma BookRows(events: seq<Event>, fromUs: int, graceUs: int, id: Id)
    requires id in BuildBook(events, fromUs, graceUs).chains
    ensures forall e :: e in BuildBook(events, fromUs, graceUs).chains[id].Rows() ==> e in events
  {
    var b := BuildBook(events, fromUs, graceUs);
    RowsConserved(events, fromUs, graceUs);
    forall e | e in b.chains[id].Rows() ensures e in events {
      HeldHas(b.chains, b.order, id, e);
      assert e in Placement(b);
      assert e in Select(events, IsChainRow);
    }
  }
}
