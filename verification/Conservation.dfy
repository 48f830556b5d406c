/** No partition row is lost or attached twice. */
module Conservation {
  import opened Attach
  import opened Commands
  import opened Events
  import opened Logs
  import opened Options

  /** Every row the listed commands hold, with multiplicity. */
  ghost function Held(chains: map<Id, Chain>, ids: seq<Id>): multiset<Event> {
    if |ids| == 0 then multiset{}
    else Held(chains, ids[..|ids| - 1])
         + (if ids[|ids| - 1] in chains then multiset(chains[ids[|ids| - 1]].Rows()) else multiset{})
  }

  lemma RowsOfAppend(ps: seq<Placed>, p: Placed)
    ensures RowsOf(ps + [p]) == RowsOf(ps) + [p.row]
  {}

  lemma AppendRows(c: Chain, e: Event, how: Match)
    requires IsChainRow(e)
    ensures multiset(c.Append(e, how).Rows()) == multiset(c.Rows()) + multiset{e}
  {
    var p := Placed(e, how);
    RowsOfAppend(c.dispatched, p);
    RowsOfAppend(c.results, p);
    RowsOfAppend(c.confirmed, p);
    RowsOfAppend(c.timedOut, p);
  }

  lemma {:induction false} HeldElsewhere(chains: map<Id, Chain>, ids: seq<Id>, id: Id, c: Chain)
    requires id !in ids
    ensures Held(chains[id := c], ids) == Held(chains, ids)
  {
    if |ids| > 0 { HeldElsewhere(chains, ids[..|ids| - 1], id, c); }
  }

  lemma {:induction false} HeldAppend(chains: map<Id, Chain>, ids: seq<Id>, id: Id, e: Event, how: Match)
    requires IsChainRow(e) && id in ids && id in chains
    requires forall i, j :: 0 <= i < j < |ids| ==> ids[i] != ids[j]
    ensures Held(chains[id := chains[id].Append(e, how)], ids) == Held(chains, ids) + multiset{e}
  {
    hide Chain.Rows, Chain.Append;
    var front := ids[..|ids| - 1];
    if ids[|ids| - 1] == id {
      AppendRows(chains[id], e, how);
      HeldElsewhere(chains, front, id, chains[id].Append(e, how));
    } else {
      HeldAppend(chains, front, id, e, how);
    }
  }

  /** Where the rows seen so far went. */
  ghost function Placement(b: Book): multiset<Event> {
    Held(b.chains, b.order) + multiset(b.unplaced) + multiset(b.carriedIn)
  }

  lemma FileRowConserves(b: Book, e: Event, target: Option<(Id, Match)>, fromUs: int, graceUs: int)
    requires BookOk(b) && IsChainRow(e) && (target.Some? ==> target.value.0 in b.chains)
    ensures Placement(FileRow(b, e, target, fromUs, graceUs)) == Placement(b) + multiset{e}
  {
    if target.Some? { HeldAppend(b.chains, b.order, target.value.0, e, target.value.1); }
  }

  lemma {:induction false} PlaceAllConserves(b: Book, events: seq<Event>, fromUs: int, graceUs: int)
    requires BookOk(b)
    ensures Placement(PlaceAll(b, events, fromUs, graceUs)) == Placement(b) + multiset(Select(events, IsChainRow))
    decreases |events|
  {
    if |events| > 0 {
      var e := events[0];
      if IsChainRow(e) {
        TargetInBook(b, e);
        FileRowConserves(b, e, Target(b, e), fromUs, graceUs);
      }
      PlaceAllConserves(Place(b, events[0], fromUs, graceUs), events[1..], fromUs, graceUs);
    }
  }

  lemma {:induction false} HeldNothing(chains: map<Id, Chain>, ids: seq<Id>)
    requires forall id :: id in chains ==> chains[id].Rows() == []
    ensures Held(chains, ids) == multiset{}
  {
    if |ids| > 0 { HeldNothing(chains, ids[..|ids| - 1]); }
  }

  lemma {:induction false} EnrollHoldsNothing(b: Book, events: seq<Event>)
    requires BookOk(b) && forall id :: id in b.chains ==> b.chains[id].Rows() == []
    ensures var r := Enroll(b, events);
      && (forall id :: id in r.chains ==> r.chains[id].Rows() == [])
      && r.unplaced == b.unplaced && r.carriedIn == b.carriedIn && r.dispatches == b.dispatches
    decreases |events|
  {
    if |events| > 0 {
      EnrollHoldsNothing(EnrollRow(b, events[0]), events[1..]);
    }
  }

  /** Conservation: attached, carried-in and unplaced rows are the non-issue
      partition rows, each exactly as often as the log holds it. */
  lemma {:induction false} RowsConserved(events: seq<Event>, fromUs: int, graceUs: int)
    ensures Placement(BuildBook(events, fromUs, graceUs)) == multiset(Select(events, IsChainRow))
  {
    var enrolled := Enroll(EMPTY_BOOK, events);
    EnrollHoldsNothing(EMPTY_BOOK, events);
    HeldNothing(enrolled.chains, enrolled.order);
    PlaceAllConserves(enrolled, events, fromUs, graceUs);
  }

  /** With one row per position every chain row lies in exactly one place. */
  lemma EachRowPlacedOnce(events: seq<Event>, fromUs: int, graceUs: int, e: Event)
    requires Positioned(events) && e in events && IsChainRow(e)
    ensures var b := BuildBook(events, fromUs, graceUs);
      Held(b.chains, b.order)[e] + multiset(b.unplaced)[e] + multiset(b.carriedIn)[e] == 1
  {
    RowsConserved(events, fromUs, graceUs);
    SelectPositioned(events, IsChainRow);
    PositionedOnce(Select(events, IsChainRow), e);
    var b := BuildBook(events, fromUs, graceUs);
    assert Placement(b)[e] == Held(b.chains, b.order)[e] + multiset(b.unplaced)[e] + multiset(b.carriedIn)[e];
  }

  /** Each list holds rows of its own type only. */
  ghost predicate FiledByKind(c: Chain) {
    && (forall p :: p in c.dispatched ==> p.row.kind.CommandDispatched?)
    && (forall p :: p in c.results ==> p.row.kind.CommandResult?)
    && (forall p :: p in c.confirmed ==> p.row.kind.StateConfirmed?)
    && (forall p :: p in c.timedOut ==> p.row.kind.CommandTimedOut?)
  }

  /** Unplaced rows are outside the start grace, carried-in rows inside it. */
  ghost predicate SidelinedByGrace(b: Book, fromUs: int, graceUs: int) {
    && (forall e :: e in b.unplaced ==> IsChainRow(e) && e.ingest - fromUs > graceUs)
    && (forall e :: e in b.carriedIn ==> IsChainRow(e) && e.ingest - fromUs <= graceUs)
  }

  lemma FileRowFiles(b: Book, e: Event, target: Option<(Id, Match)>, fromUs: int, graceUs: int)
    requires IsChainRow(e) && (target.Some? ==> target.value.0 in b.chains)
    requires SidelinedByGrace(b, fromUs, graceUs)
    requires forall id :: id in b.chains ==> FiledByKind(b.chains[id])
    ensures var r := FileRow(b, e, target, fromUs, graceUs);
      SidelinedByGrace(r, fromUs, graceUs) && forall id :: id in r.chains ==> FiledByKind(r.chains[id])
  {}

  lemma {:induction false} PlaceAllFiles(b: Book, events: seq<Event>, fromUs: int, graceUs: int)
    requires BookOk(b) && SidelinedByGrace(b, fromUs, graceUs)
    requires forall id :: id in b.chains ==> FiledByKind(b.chains[id])
    ensures var r := PlaceAll(b, events, fromUs, graceUs);
      && SidelinedByGrace(r, fromUs, graceUs)
      && forall id :: id in r.chains ==> FiledByKind(r.chains[id])
    decreases |events|
  {
    if |events| > 0 {
      var e := events[0];
      if IsChainRow(e) {
        TargetInBook(b, e);
        FileRowFiles(b, e, Target(b, e), fromUs, graceUs);
      }
      PlaceAllFiles(Place(b, e, fromUs, graceUs), events[1..], fromUs, graceUs);
    }
  }

  lemma {:induction false} EnrollFiles(b: Book, events: seq<Event>)
    requires BookOk(b) && forall id :: id in b.chains ==> FiledByKind(b.chains[id])
    ensures forall id :: id in Enroll(b, events).chains ==> FiledByKind(Enroll(b, events).chains[id])
    decreases |events|
  {
    if |events| > 0 {
      EnrollFiles(EnrollRow(b, events[0]), events[1..]);
    }
  }

  lemma RowsFiled(events: seq<Event>, fromUs: int, graceUs: int)
    ensures var b := BuildBook(events, fromUs, graceUs);
      && SidelinedByGrace(b, fromUs, graceUs)
      && forall id :: id in b.chains ==> FiledByKind(b.chains[id])
  {
    EnrollHoldsNothing(EMPTY_BOOK, events);
    EnrollFiles(EMPTY_BOOK, events);
    PlaceAllFiles(Enroll(EMPTY_BOOK, events), events, fromUs, graceUs);
  }
}
