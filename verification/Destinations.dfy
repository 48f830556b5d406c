/** Which command holds a row: the laws of `build_commands`, row by row. */
module Destinations {
  import opened Attach
  import opened Commands
  import opened Events
  import opened Options

  /** The log holds an issue row with that id. */
  predicate Issued(events: seq<Event>, id: Id) {
    exists i :: 0 <= i < |events| && events[i].kind.CommandIssued? && events[i].id == id
  }

  /** The command holds the row in the list of its type, placed by that match. */
  predicate HeldAs(c: Chain, e: Event, how: Match) {
    && (e.kind.CommandDispatched? ==> Placed(e, how) in c.dispatched)
    && (e.kind.CommandResult? ==> Placed(e, how) in c.results)
    && (e.kind.StateConfirmed? ==> Placed(e, how) in c.confirmed)
    && (e.kind.CommandTimedOut? ==> Placed(e, how) in c.timedOut)
  }

  /** The book once the rows before `i` are placed. */
  function Before(events: seq<Event>, i: nat, fromUs: int, graceUs: int): (b: Book)
    requires i <= |events|
    ensures BookOk(b)
  {
    PlaceAll(Enroll(EMPTY_BOOK, events), events[..i], fromUs, graceUs)
  }

  // ---------------------------------------------------------------- what later rows keep

  ghost predicate Longer(c: Chain, d: Chain) {
    && c.issue == d.issue && c.dispatched <= d.dispatched && c.results <= d.results
    && c.confirmed <= d.confirmed && c.timedOut <= d.timedOut
  }

  lemma {:induction false} PlaceAllGrows(b: Book, events: seq<Event>, fromUs: int, graceUs: int)
    requires BookOk(b)
    ensures var r := PlaceAll(b, events, fromUs, graceUs);
      forall id :: id in b.chains ==> id in r.chains && Longer(b.chains[id], r.chains[id])
    ensures var r := PlaceAll(b, events, fromUs, graceUs); b.unplaced <= r.unplaced && b.carriedIn <= r.carriedIn
    decreases |events|
  {
    if |events| > 0 {
      var next := Place(b, events[0], fromUs, graceUs);
      PlaceGrows(b, events[0], fromUs, graceUs);
      PlaceAllGrows(next, events[1..], fromUs, graceUs);
      hide Place, Chain.Terminals;
    }
  }

  lemma PlaceGrows(b: Book, e: Event, fromUs: int, graceUs: int)
    requires BookOk(b)
    ensures var r := Place(b, e, fromUs, graceUs);
      forall id :: id in b.chains ==> id in r.chains && Longer(b.chains[id], r.chains[id])
    ensures var r := Place(b, e, fromUs, graceUs); b.unplaced <= r.unplaced && b.carriedIn <= r.carriedIn
  {
    hide Target;
    if IsChainRow(e) {
      TargetInBook(b, e);
    }
  }

  lemma {:induction false} EnrollKeys(b: Book, events: seq<Event>)
    requires BookOk(b)
    ensures forall id :: id in Enroll(b, events).chains <==> id in b.chains || Issued(events, id)
    decreases |events|
  {
    if |events| > 0 {
      EnrollKeys(EnrollRow(b, events[0]), events[1..]);
      forall id
        ensures Issued(events, id) <==> Issued(events[1..], id) || (events[0].kind.CommandIssued? && events[0].id == id)
      {
        if i :| 0 <= i < |events| && events[i].kind.CommandIssued? && events[i].id == id {
          if i > 0 { assert events[1..][i - 1] == events[i]; }
        }
        if i :| 0 <= i < |events[1..]| && events[1..][i].kind.CommandIssued? && events[1..][i].id == id {
          assert events[i + 1] == events[1..][i];
        }
      }
    }
  }

  /** The commands are those the log issues, at every step. */
  lemma CommandsAreIssued(events: seq<Event>, i: nat, fromUs: int, graceUs: int)
    requires i <= |events|
    ensures forall id :: id in Before(events, i, fromUs, graceUs).chains <==> Issued(events, id)
  {
    EnrollKeys(EMPTY_BOOK, events);
    hide Enroll, Place;
  }

  predicate IssuedAt(events: seq<Event>, i: int, id: Id) {
    0 <= i < |events| && events[i].kind.CommandIssued? && events[i].id == id
  }

  /** The first issue of `a` comes before every issue of `b`. */
  ghost predicate IssuedFirst(events: seq<Event>, a: Id, b: Id) {
    exists i :: IssuedAt(events, i, a) && forall j :: IssuedAt(events, j, b) ==> i < j
  }

  ghost predicate LastIssue(events: seq<Event>, id: Id, issue: Event) {
    exists i :: IssuedAt(events, i, id) && events[i] == issue && forall j :: IssuedAt(events, j, id) ==> j <= i
  }

  lemma IssuedPush(front: seq<Event>, e: Event, i: int, id: Id)
    ensures IssuedAt(front + [e], i, id) <==> IssuedAt(front, i, id) || (i == |front| && e.kind.CommandIssued? && e.id == id)
  {
  }

  lemma IssuedFirstPush(front: seq<Event>, e: Event, a: Id, b: Id)
    requires IssuedFirst(front, a, b) || (Issued(front, a) && !Issued(front, b))
    ensures IssuedFirst(front + [e], a, b)
  {
    if Issued(front, a) && !Issued(front, b) {
      var k :| 0 <= k < |front| && front[k].kind.CommandIssued? && front[k].id == a;
      assert IssuedAt(front, k, a) && forall j :: !IssuedAt(front, j, b);
    }
    var i :| IssuedAt(front, i, a) && forall j :: IssuedAt(front, j, b) ==> i < j;
    IssuedPush(front, e, i, a);
    forall j | IssuedAt(front + [e], j, b) ensures i < j { IssuedPush(front, e, j, b); }
  }

  lemma LastIssuePush(front: seq<Event>, e: Event, id: Id, issue: Event)
    requires if e.kind.CommandIssued? && e.id == id then issue == e else LastIssue(front, id, issue)
    ensures LastIssue(front + [e], id, issue)
  {
    forall i { IssuedPush(front, e, i, id); }
    if e.kind.CommandIssued? && e.id == id {
      assert IssuedAt(front + [e], |front|, id);
    } else {
      var i :| IssuedAt(front, i, id) && front[i] == issue && forall j :: IssuedAt(front, j, id) ==> j <= i;
      assert IssuedAt(front + [e], i, id) && (front + [e])[i] == issue;
    }
  }

  /** The order is that of the first issues. */
  ghost predicate Listed(events: seq<Event>, b: Book) {
    && (forall x, y :: 0 <= x < y < |b.order| ==> IssuedFirst(events, b.order[x], b.order[y]))
    && (forall id :: id in b.chains ==> LastIssue(events, id, b.chains[id].issue))
  }

  lemma ListedPush(front: seq<Event>, e: Event, was: Book)
    requires BookOk(was) && Listed(front, was) && forall id :: id in was.chains <==> Issued(front, id)
    ensures Listed(front + [e], EnrollRow(was, e))
  {
    hide Issued, IssuedFirst, LastIssue;
    var b := EnrollRow(was, e);
    forall x, y | 0 <= x < y < |b.order| ensures IssuedFirst(front + [e], b.order[x], b.order[y]) {
      assert b.order[x] == was.order[x] && was.order[x] in was.order;
      assert y < |was.order| ==> b.order[y] == was.order[y];
      IssuedFirstPush(front, e, b.order[x], b.order[y]);
    }
    forall id | id in b.chains ensures LastIssue(front + [e], id, b.chains[id].issue) {
      LastIssuePush(front, e, id, b.chains[id].issue);
    }
  }

  lemma {:induction false} EnrolledInOrder(events: seq<Event>)
    ensures Listed(events, Enroll(EMPTY_BOOK, events))
    decreases |events|
  {
    if |events| > 0 {
      var front, e := events[..|events| - 1], events[|events| - 1];
      EnrolledInOrder(front);
      EnrollKeys(EMPTY_BOOK, front);
      EnrollAppend(EMPTY_BOOK, front, [e]);
      assert front + [e] == events && [e][1..] == [];
      var was := Enroll(EMPTY_BOOK, front);
      assert Enroll(EMPTY_BOOK, events) == EnrollRow(was, e);
      ListedPush(front, e, was);
    }
  }

  /** The commands are listed by their first issue, and each keeps the last issue row of its id. */
  lemma {:induction false} IssuesListed(events: seq<Event>, fromUs: int, graceUs: int)
    ensures var b := BuildBook(events, fromUs, graceUs);
      && (forall id :: id in b.order <==> Issued(events, id))
      && (forall x, y :: 0 <= x < y < |b.order| ==> IssuedFirst(events, b.order[x], b.order[y]))
      && (forall id :: id in b.chains ==> LastIssue(events, id, b.chains[id].issue))
  {
    EnrolledInOrder(events);
    EnrollKeys(EMPTY_BOOK, events);
    var start, b := Enroll(EMPTY_BOOK, events), BuildBook(events, fromUs, graceUs);
    PlaceAllGrows(start, events, fromUs, graceUs);
    hide Enroll, IssuedFirst, LastIssue, Issued, PlaceAll;
    assert b.order == start.order;
    forall id | id in b.chains ensures LastIssue(events, id, b.chains[id].issue) {
      assert id in start.chains && Longer(start.chains[id], b.chains[id]);
    }
  }

  lemma BookSplits(events: seq<Event>, i: nat, fromUs: int, graceUs: int)
    requires i < |events|
    ensures BuildBook(events, fromUs, graceUs)
      == PlaceAll(Place(Before(events, i, fromUs, graceUs), events[i], fromUs, graceUs), events[i + 1..], fromUs, graceUs)
  {
    var start, b := Enroll(EMPTY_BOOK, events), Before(events, i, fromUs, graceUs);
    assert events == events[..i] + events[i..];
    PlaceAllAppend(start, events[..i], events[i..], fromUs, graceUs);
    assert events[i..][0] == events[i] && events[i..][1..] == events[i + 1..];
    hide Enroll, Place;
  }

  /** A row with a target is held by it in the end. */
  lemma Lands(events: seq<Event>, i: nat, fromUs: int, graceUs: int)
    requires i < |events| && IsChainRow(events[i]) && Target(Before(events, i, fromUs, graceUs), events[i]).Some?
    ensures var b, (id, how) := BuildBook(events, fromUs, graceUs), Target(Before(events, i, fromUs, graceUs), events[i]).value;
      id in b.chains && HeldAs(b.chains[id], events[i], how)
  {
    hide Target, Enroll, PlaceAll, BuildBook;
    var was := Before(events, i, fromUs, graceUs);
    var (id, how) := Target(was, events[i]).value;
    TargetInBook(was, events[i]);
    var next := Place(was, events[i], fromUs, graceUs);
    assert HeldAs(next.chains[id], events[i], how);
    BookSplits(events, i, fromUs, graceUs);
    PlaceAllGrows(next, events[i + 1..], fromUs, graceUs);
    HeldLonger(next.chains[id], BuildBook(events, fromUs, graceUs).chains[id], events[i], how);
  }

  lemma HeldLonger(c: Chain, d: Chain, e: Event, how: Match)
    requires HeldAs(c, e, how) && Longer(c, d)
    ensures HeldAs(d, e, how)
  {
  }

  // ---------------------------------------------------------------- keys

  /** The payload of a confirmation or a timeout names the issue. */
  predicate NamesByPayload(e: Event, id: Id) {
    (e.kind.StateConfirmed? || e.kind.CommandTimedOut?) && !IsOpaque(e) && e.payload.commandEventId == Some(id)
  }

  predicate NamesByCausation(e: Event, id: Id) { e.causation == Some(id) }

  ghost predicate NamesNoIssue(events: seq<Event>, e: Event) {
    forall id :: Issued(events, id) ==> !NamesByPayload(e, id) && !NamesByCausation(e, id)
  }

  /** The command whose issue a confirmation's or timeout's payload names holds it, whatever its causation. */
  lemma {:induction false} PayloadKeyDecides(events: seq<Event>, fromUs: int, graceUs: int, i: nat, id: Id)
    requires i < |events| && NamesByPayload(events[i], id) && Issued(events, id)
    ensures var b := BuildBook(events, fromUs, graceUs);
      id in b.chains && HeldAs(b.chains[id], events[i], PayloadCommandEventId)
  {
    CommandsAreIssued(events, i, fromUs, graceUs);
    hide Issued, Before;
    Lands(events, i, fromUs, graceUs);
  }

  /** Without such a payload, the command whose issue is the row's causation holds it. */
  lemma {:induction false} CausationDecides(events: seq<Event>, fromUs: int, graceUs: int, i: nat, id: Id)
    requires i < |events| && IsChainRow(events[i]) && NamesByCausation(events[i], id) && Issued(events, id)
    requires forall other :: Issued(events, other) ==> !NamesByPayload(events[i], other)
    ensures var b := BuildBook(events, fromUs, graceUs);
      id in b.chains && HeldAs(b.chains[id], events[i], CausationIssued)
  {
    CommandsAreIssued(events, i, fromUs, graceUs);
    hide Issued, Before;
    Lands(events, i, fromUs, graceUs);
  }

  /** The command holds a dispatch row with that id. */
  predicate HoldsDispatch(b: Book, id: Id, d: Id) {
    id in b.chains && exists p :: p in b.chains[id].dispatched && p.row.id == d
  }

  /** The dispatches known are the dispatch rows held, each leading to a command that holds one. */
  ghost predicate DispatchesKnown(b: Book) {
    && (forall d :: d in b.dispatches ==> HoldsDispatch(b, b.dispatches[d], d))
    && (forall id, d :: HoldsDispatch(b, id, d) ==> d in b.dispatches)
  }

  /** A step adds the dispatch row it places, to its target. */
  lemma PlaceHolds(b: Book, e: Event, fromUs: int, graceUs: int, id: Id, d: Id)
    requires BookOk(b)
    ensures HoldsDispatch(Place(b, e, fromUs, graceUs), id, d) <==>
      || HoldsDispatch(b, id, d)
      || (e.kind.CommandDispatched? && e.id == d && Target(b, e).Some? && Target(b, e).value.0 == id)
  {
    hide Target;
    if IsChainRow(e) && Target(b, e).Some? {
      TargetInBook(b, e);
      var (to, how) := Target(b, e).value;
      if id == to && e.kind.CommandDispatched? {
        var r := Place(b, e, fromUs, graceUs);
        assert forall p :: p in r.chains[id].dispatched <==> p in b.chains[id].dispatched || p == Placed(e, how);
      }
    }
  }

  lemma PlaceKnows(b: Book, e: Event, fromUs: int, graceUs: int)
    requires BookOk(b) && DispatchesKnown(b)
    ensures DispatchesKnown(Place(b, e, fromUs, graceUs))
  {
    hide Target, HoldsDispatch;
    if IsChainRow(e) { TargetInBook(b, e); }
    forall id, d { PlaceHolds(b, e, fromUs, graceUs, id, d); }
  }

  lemma {:induction false} PlaceAllKnows(b: Book, events: seq<Event>, fromUs: int, graceUs: int)
    requires BookOk(b) && DispatchesKnown(b)
    ensures DispatchesKnown(PlaceAll(b, events, fromUs, graceUs))
    decreases |events|
  {
    if |events| > 0 {
      PlaceKnows(b, events[0], fromUs, graceUs);
      hide DispatchesKnown, Place;
      PlaceAllKnows(Place(b, events[0], fromUs, graceUs), events[1..], fromUs, graceUs);
    }
  }

  lemma {:induction false} EnrollKnows(b: Book, events: seq<Event>)
    requires BookOk(b) && b.dispatches == map[] && forall id :: id in b.chains ==> b.chains[id].dispatched == []
    ensures var r := Enroll(b, events);
      r.dispatches == map[] && forall id :: id in r.chains ==> r.chains[id].dispatched == []
    decreases |events|
  {
    if |events| > 0 {
      EnrollKnows(EnrollRow(b, events[0]), events[1..]);
    }
  }

  lemma KnownBefore(events: seq<Event>, i: nat, fromUs: int, graceUs: int)
    requires i <= |events|
    ensures DispatchesKnown(Before(events, i, fromUs, graceUs))
  {
    EnrollKnows(EMPTY_BOOK, events);
    PlaceAllKnows(Enroll(EMPTY_BOOK, events), events[..i], fromUs, graceUs);
  }

  /** A result whose causation is a dispatch row that one command holds by then follows it there. */
  lemma {:induction false} DispatchDecides(events: seq<Event>, fromUs: int, graceUs: int, i: nat, id: Id, d: Id)
    requires i < |events| && events[i].kind.CommandResult? && NamesByCausation(events[i], d) && !Issued(events, d)
    requires var was := Before(events, i, fromUs, graceUs);
      HoldsDispatch(was, id, d) && forall other :: HoldsDispatch(was, other, d) ==> other == id
    ensures var b := BuildBook(events, fromUs, graceUs);
      id in b.chains && HeldAs(b.chains[id], events[i], CausationDispatched)
  {
    CommandsAreIssued(events, i, fromUs, graceUs);
    KnownBefore(events, i, fromUs, graceUs);
    hide Issued, Before, HoldsDispatch;
    Lands(events, i, fromUs, graceUs);
  }

  predicate NoDispatch(events: seq<Event>, d: Id) {
    forall i :: 0 <= i < |events| && events[i].kind.CommandDispatched? ==> events[i].id != d
  }

  lemma {:induction false} PlaceAllHolds(b: Book, events: seq<Event>, fromUs: int, graceUs: int, id: Id, d: Id)
    requires BookOk(b) && NoDispatch(events, d)
    ensures HoldsDispatch(PlaceAll(b, events, fromUs, graceUs), id, d) <==> HoldsDispatch(b, id, d)
    decreases |events|
  {
    if |events| > 0 {
      PlaceHolds(b, events[0], fromUs, graceUs, id, d);
      assert forall i :: 0 <= i < |events[1..]| ==> events[1..][i] == events[i + 1];
      PlaceAllHolds(Place(b, events[0], fromUs, graceUs), events[1..], fromUs, graceUs, id, d);
      hide Place, HoldsDispatch;
    }
  }

  /** The holders of a dispatch row are its target, once later rows bear other ids. */
  lemma HolderOfPlaced(was: Book, e: Event, later: seq<Event>, fromUs: int, graceUs: int, id: Id)
    requires BookOk(was) && e.kind.CommandDispatched? && NoDispatch(later, e.id) && !HoldsDispatch(was, id, e.id)
    ensures HoldsDispatch(PlaceAll(Place(was, e, fromUs, graceUs), later, fromUs, graceUs), id, e.id)
      <==> Target(was, e).Some? && Target(was, e).value.0 == id
  {
    PlaceHolds(was, e, fromUs, graceUs, id, e.id);
    hide Place, HoldsDispatch, Target, PlaceAll;
    PlaceAllHolds(Place(was, e, fromUs, graceUs), later, fromUs, graceUs, id, e.id);
  }

  lemma NotHeldBefore(events: seq<Event>, fromUs: int, graceUs: int, j: nat, id: Id)
    requires j < |events| && NoDispatch(events[..j], events[j].id)
    ensures !HoldsDispatch(Before(events, j, fromUs, graceUs), id, events[j].id)
  {
    var start := Enroll(EMPTY_BOOK, events);
    EnrollKnows(EMPTY_BOOK, events);
    assert !HoldsDispatch(start, id, events[j].id);
    hide Enroll, HoldsDispatch, PlaceAll;
    PlaceAllHolds(start, events[..j], fromUs, graceUs, id, events[j].id);
  }

  predicate OnlyDispatch(events: seq<Event>, j: nat)
    requires j < |events|
  {
    events[j].kind.CommandDispatched?
    && forall k :: 0 <= k < |events| && k != j && events[k].kind.CommandDispatched? ==> events[k].id != events[j].id
  }

  lemma HolderIsTarget(events: seq<Event>, fromUs: int, graceUs: int, j: nat, i: nat, id: Id)
    requires j < i <= |events| && OnlyDispatch(events, j)
    ensures var t := Target(Before(events, j, fromUs, graceUs), events[j]);
      && (HoldsDispatch(Before(events, i, fromUs, graceUs), id, events[j].id) <==> t.Some? && t.value.0 == id)
      && (HoldsDispatch(BuildBook(events, fromUs, graceUs), id, events[j].id) <==> t.Some? && t.value.0 == id)
  {
    assert NoDispatch(events[..j], events[j].id) && NoDispatch(events[j + 1..], events[j].id) && NoDispatch(events[j + 1..i], events[j].id);
    hide NoDispatch, OnlyDispatch, Before, BuildBook, HoldsDispatch, Target, Place, PlaceAll;
    NotHeldBefore(events, fromUs, graceUs, j, id);
    BookSplits(events, j, fromUs, graceUs);
    HolderOfPlaced(Before(events, j, fromUs, graceUs), events[j], events[j + 1..], fromUs, graceUs, id);
    BeforeSplits(events, j, i, fromUs, graceUs);
    HolderOfPlaced(Before(events, j, fromUs, graceUs), events[j], events[j + 1..i], fromUs, graceUs, id);
  }

  lemma BeforeSplits(events: seq<Event>, j: nat, i: nat, fromUs: int, graceUs: int)
    requires j < i <= |events|
    ensures Before(events, i, fromUs, graceUs)
      == PlaceAll(Place(Before(events, j, fromUs, graceUs), events[j], fromUs, graceUs), events[j + 1..i], fromUs, graceUs)
  {
    var start := Enroll(EMPTY_BOOK, events);
    assert events[..i] == events[..j] + events[j..i];
    PlaceAllAppend(start, events[..j], events[j..i], fromUs, graceUs);
    assert events[j..i][0] == events[j] && events[j..i][1..] == events[j + 1..i];
    hide Enroll, Place;
  }

  /** A result caused by an earlier dispatch row of an id no other dispatch row has: the command that
      holds the one holds the other. */
  lemma {:induction false} ResultFollowsDispatch(events: seq<Event>, fromUs: int, graceUs: int, j: nat, i: nat, id: Id)
    requires j < i < |events| && OnlyDispatch(events, j) && events[i].kind.CommandResult?
    requires events[i].causation == Some(events[j].id) && !Issued(events, events[j].id)
    requires HoldsDispatch(BuildBook(events, fromUs, graceUs), id, events[j].id)
    ensures HeldAs(BuildBook(events, fromUs, graceUs).chains[id], events[i], CausationDispatched)
  {
    forall other { HolderIsTarget(events, fromUs, graceUs, j, i, other); }
    hide Before, Issued, HoldsDispatch, Target, HeldAs, BuildBook;
    DispatchDecides(events, fromUs, graceUs, i, id, events[j].id);
  }

  // ---------------------------------------------------------------- no key

  /** The command may still be closed by the row: its correlation and subject, the type a result
      names, issued by then, and no first terminal before the row. */
  predicate MayClose(c: Chain, e: Event) {
    && c.issue.correlation == e.correlation && c.issue.subject == e.subject && c.issue.ingest <= e.ingest
    && (e.kind.CommandResult? && !IsOpaque(e) && e.payload.commandType.Some? ==>
        !IsOpaque(c.issue) && c.issue.payload.commandType == e.payload.commandType)
    && (c.Terminals() == [] || c.Terminals()[0].row.ingest >= e.ingest)
  }

  /** The earliest issue of those, the first listed on a tie. */
  ghost predicate FirstInLine(b: Book, e: Event, k: nat) {
    && k < |b.order| && b.order[k] in b.chains && MayClose(b.chains[b.order[k]], e)
    && (forall j :: 0 <= j < |b.order| && b.order[j] in b.chains && MayClose(b.chains[b.order[j]], e) ==>
        b.chains[b.order[k]].issue.ingest <= b.chains[b.order[j]].issue.ingest)
    && (forall j :: 0 <= j < k && b.order[j] in b.chains && MayClose(b.chains[b.order[j]], e) ==>
        b.chains[b.order[k]].issue.ingest < b.chains[b.order[j]].issue.ingest)
  }

  /** The row carries no key that leads anywhere. */
  ghost predicate Keyless(events: seq<Event>, b: Book, e: Event) {
    && NamesNoIssue(events, e)
    && (e.kind.CommandResult? && e.causation.Some? ==> forall id :: !HoldsDispatch(b, id, e.causation.value))
  }

  lemma OpenIsMayClose(b: Book, e: Event, id: Id)
    requires id in b.chains
    ensures OpenIn(b.chains, e, if e.kind.CommandResult? then CommandTypeOf(e) else None)(id) <==> MayClose(b.chains[id], e)
  {
    hide Chain.Terminals;
  }

  lemma {:induction false} KeylessTarget(events: seq<Event>, b: Book, e: Event)
    requires IsChainRow(e) && BookOk(b) && DispatchesKnown(b) && Keyless(events, b, e)
    requires forall id :: id in b.chains <==> Issued(events, id)
    ensures Target(b, e) == FallbackTarget(b, e)
  {
    hide Issued, HoldsDispatch, FallbackTarget;
    assert forall d :: d in b.dispatches ==> HoldsDispatch(b, b.dispatches[d], d);
    if CommandEventIdOf(e).Some? && !e.kind.CommandDispatched? && !e.kind.CommandResult? {
      assert NamesByPayload(e, CommandEventIdOf(e).value);
    }
    if e.causation.Some? {
      assert NamesByCausation(e, e.causation.value);
    }
  }

  lemma OldestIsFirst(b: Book, e: Event, open: Id -> bool, issuedUs: Id -> int, k: nat)
    requires BookOk(b) && k < |b.order| && IsOldest(b.order, open, issuedUs, k)
    requires forall id :: id in b.chains ==> (open(id) <==> MayClose(b.chains[id], e)) && issuedUs(id) == b.chains[id].issue.ingest
    ensures FirstInLine(b, e, k)
  {
    hide MayClose;
    assert forall j :: 0 <= j < |b.order| ==> b.order[j] in b.order;
  }

  lemma {:induction false} FallbackIsFirst(b: Book, e: Event)
    requires IsChainRow(e) && BookOk(b)
    ensures FallbackTarget(b, e).None? <==> forall id :: id in b.chains ==> !MayClose(b.chains[id], e)
    ensures FallbackTarget(b, e).Some? ==>
      && FallbackTarget(b, e).value.1 == (if e.kind.CommandResult? then FallbackSubjectType else FallbackSubject)
      && exists k :: 0 <= k < |b.order| && FirstInLine(b, e, k) && FallbackTarget(b, e).value.0 == b.order[k]
  {
    var open, issuedUs := OpenIn(b.chains, e, if e.kind.CommandResult? then CommandTypeOf(e) else None), IssuedIn(b.chains);
    OldestIsOldest(b.order, open, issuedUs);
    forall id | id in b.chains
      ensures open(id) <==> MayClose(b.chains[id], e)
      ensures issuedUs(id) == b.chains[id].issue.ingest
    {
      OpenIsMayClose(b, e, id);
    }
    hide MayClose, StillOpen, Oldest, OpenIn, IssuedIn, FirstInLine, IsOldest;
    if FallbackTarget(b, e).Some? {
      var k :| 0 <= k < |b.order| && IsOldest(b.order, open, issuedUs, k) && Oldest(b.order, open, issuedUs) == Some(b.order[k]);
      OldestIsFirst(b, e, open, issuedUs, k);
    }
  }

  /** A row without a key that leads anywhere is held by the first command in line that it may close;
      without one it is set aside, by the start grace carried in or unplaced. */
  lemma {:induction false} KeylessGoesToFirst(events: seq<Event>, fromUs: int, graceUs: int, i: nat)
    requires i < |events| && IsChainRow(events[i])
    requires Keyless(events, Before(events, i, fromUs, graceUs), events[i])
    ensures var b, was, e := BuildBook(events, fromUs, graceUs), Before(events, i, fromUs, graceUs), events[i];
      if exists id :: id in was.chains && MayClose(was.chains[id], e) then
        exists k :: 0 <= k < |was.order| && FirstInLine(was, e, k) && was.order[k] in b.chains
          && HeldAs(b.chains[was.order[k]], e, if e.kind.CommandResult? then FallbackSubjectType else FallbackSubject)
      else if e.ingest - fromUs <= graceUs then e in b.carriedIn else e in b.unplaced
  {
    var was, e := Before(events, i, fromUs, graceUs), events[i];
    CommandsAreIssued(events, i, fromUs, graceUs);
    KnownBefore(events, i, fromUs, graceUs);
    hide Before, Issued, FirstInLine, MayClose, HeldAs, Chain.Terminals;
    KeylessTarget(events, was, e);
    FallbackIsFirst(was, e);
    if Target(was, e).Some? {
      Lands(events, i, fromUs, graceUs);
    } else {
      SetAside(events, i, fromUs, graceUs);
    }
  }

  lemma SetAside(events: seq<Event>, i: nat, fromUs: int, graceUs: int)
    requires i < |events| && IsChainRow(events[i]) && Target(Before(events, i, fromUs, graceUs), events[i]).None?
    ensures var b, e := BuildBook(events, fromUs, graceUs), events[i];
      if e.ingest - fromUs <= graceUs then e in b.carriedIn else e in b.unplaced
  {
    hide Target, PlaceAll, BuildBook, Enroll;
    var was := Before(events, i, fromUs, graceUs);
    var next := Place(was, events[i], fromUs, graceUs);
    BookSplits(events, i, fromUs, graceUs);
    PlaceAllGrows(next, events[i + 1..], fromUs, graceUs);
    var e, b := events[i], BuildBook(events, fromUs, graceUs);
    if e.ingest - fromUs <= graceUs {
      assert e in next.carriedIn;
    } else {
      assert e in next.unplaced;
    }
  }
}
