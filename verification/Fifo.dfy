/** The oldest-open fallback hands keyless terminal rows out first in, first out. */
module Fifo {
  import opened Attach
  import opened Commands
  import opened Events
  import opened Logs
  import opened Options

  /** A row that becomes a terminal of whichever command it reaches. */
  predicate IsTerminalRow(e: Event) {
    || e.kind.StateConfirmed? || e.kind.CommandTimedOut?
    || (e.kind.CommandResult? && !IsOpaque(e) && OutcomeOf(e) != ACKNOWLEDGED)
  }

  function KindOf(e: Event): TerminalKind {
    if e.kind.StateConfirmed? then ByConfirmation else if e.kind.CommandTimedOut? then ByTimeout else ByResult
  }

  /** The row as a terminal the fallback placed. */
  function TerminalOf(e: Event): Terminal {
    Terminal(e, KindOf(e), if e.kind.CommandResult? then FallbackSubjectType else FallbackSubject)
  }

  lemma TagAppend(ps: seq<Placed>, p: Placed, kind: TerminalKind)
    ensures Tag(ps + [p], kind) == Tag(ps, kind) + [Terminal(p.row, kind, p.how)]
  {}

  lemma AppendUnsorted(c: Chain, e: Event, how: Match)
    requires IsChainRow(e)
    ensures !IsTerminalRow(e) ==> c.Append(e, how).Unsorted() == c.Unsorted()
    ensures IsTerminalRow(e) && c.Unsorted() == [] ==> c.Append(e, how).Unsorted() == [Terminal(e, KindOf(e), how)]
  {
    var p := Placed(e, how);
    SelectAppend(c.results, [p], (p: Placed) => !IsOpaque(p.row) && OutcomeOf(p.row) != ACKNOWLEDGED);
    TagAppend(c.confirmed, p, ByConfirmation);
    TagAppend(c.timedOut, p, ByTimeout);
    TagAppend(c.TerminalResults(), p, ByResult);
  }

  lemma AppendTerminals(c: Chain, e: Event, how: Match)
    requires IsChainRow(e)
    ensures !IsTerminalRow(e) ==> c.Append(e, how).Terminals() == c.Terminals()
    ensures IsTerminalRow(e) && c.Terminals() == [] ==> c.Append(e, how).Terminals() == [Terminal(e, KindOf(e), how)]
  {
    AppendUnsorted(c, e, how);
    var t := Terminal(e, KindOf(e), how);
    assert SortTerminals([t]) == [t] by { assert [t][..0] == []; }
  }

  /** One (correlation, subject) pair of a log: its commands in issue order and
      the terminal rows that come to it without a key, in position order. */
  datatype Pair = Pair(correlation: Option<Id>, subject: Id, ids: seq<Id>, arrivals: seq<Event>,
                       enrolled: map<Id, Chain>, events: seq<Event>)
  {
    predicate Owns(e: Event) { e.correlation == correlation && e.subject == subject }

    /** A key of the row is the id of a command. */
    predicate NamesCommand(e: Event) {
      || (e.causation.Some? && e.causation.value in enrolled)
      || (!e.kind.CommandResult? && CommandEventIdOf(e).Some? && CommandEventIdOf(e).value in enrolled)
    }

    predicate Keyless(e: Event) { IsTerminalRow(e) && Owns(e) && !NamesCommand(e) }

    /** Dispatch rows that may be attached to a command of the pair. */
    predicate OwnDispatch(d: Event) {
      d.kind.CommandDispatched? && (Owns(d) || (d.causation.Some? && d.causation.value in ids))
    }

    ghost function OwnDispatchIds(): set<Id> { set d | d in events && OwnDispatch(d) :: d.id }

    ghost function DispatchIds(): set<Id> { set d | d in events && d.kind.CommandDispatched? :: d.id }

    /** No key of a terminal row leads to the pair. */
    ghost predicate NoKeyLeadsHere(e: Event) {
      && (e.causation.Some? ==> e.causation.value !in ids)
      && (!e.kind.CommandResult? && CommandEventIdOf(e).Some? ==> CommandEventIdOf(e).value !in ids)
      && (e.kind.CommandResult? && e.causation.Some? ==> e.causation.value !in OwnDispatchIds())
      && (e.kind.CommandResult? && e.causation.Some? && Keyless(e) ==> e.causation.value !in DispatchIds())
    }

    /** `ids` are the pair's commands, by strictly increasing issue time. */
    ghost predicate Listed() {
      && (forall id :: id in ids <==> id in enrolled && Owns(enrolled[id].issue))
      && (forall i, j :: 0 <= i < j < |ids| ==> enrolled[ids[i]].IssuedUs() < enrolled[ids[j]].IssuedUs())
    }

    /** The i-th arrival is not before the i-th issue and names no other type;
        arrivals come at strictly increasing instants. */
    ghost predicate Timely()
      requires Listed()
    {
      && |arrivals| <= |ids|
      && (forall i, j :: 0 <= i < j < |arrivals| ==> arrivals[i].ingest < arrivals[j].ingest)
      && (forall i :: 0 <= i < |arrivals| ==>
            && Keyless(arrivals[i]) && NoKeyLeadsHere(arrivals[i])
            && enrolled[ids[i]].IssuedUs() <= arrivals[i].ingest
            && (arrivals[i].kind.CommandResult? && CommandTypeOf(arrivals[i]).Some? ==>
                  enrolled[ids[i]].CommandType() == CommandTypeOf(arrivals[i])))
    }

    /** The hypotheses of FIFO delivery. */
    ghost predicate Lawful() {
      && enrolled == Enroll(EMPTY_BOOK, events).chains
      && arrivals == Select(events, (e: Event) => Keyless(e))
      && Listed() && Timely()
      && (forall e :: e in events && IsTerminalRow(e) ==> NoKeyLeadsHere(e))
    }

    ghost predicate SameIssues(chains: map<Id, Chain>) {
      chains.Keys == enrolled.Keys && forall id :: id in chains ==> chains[id].issue == enrolled[id].issue
    }

    /** After `k` arrivals the first `k` commands are closed in order, the rest open. */
    ghost predicate Served(chains: map<Id, Chain>, k: nat) {
      forall i :: 0 <= i < |ids| && ids[i] in chains && k <= |arrivals| ==>
        chains[ids[i]].Terminals() == if i < k then [TerminalOf(arrivals[i])] else []
    }

    ghost predicate Dispatches(b: Book) {
      && b.dispatches.Keys <= DispatchIds()
      && forall x :: x in b.dispatches && b.dispatches[x] in ids ==> x in OwnDispatchIds()
    }
  }

  /** When the k-th arrival comes, the first k commands are closed and the next is open. */
  lemma OpenFromNext(p: Pair, chains: map<Id, Chain>, k: nat, e: Event, commandType: Option<string>)
    requires p.Listed() && p.Timely() && p.SameIssues(chains) && p.Served(chains, k)
    requires k < |p.arrivals| && e == p.arrivals[k]
    requires commandType == if e.kind.CommandResult? then CommandTypeOf(e) else None
    ensures forall i :: 0 <= i < k ==> !StillOpen(chains[p.ids[i]], e, commandType)
    ensures StillOpen(chains[p.ids[k]], e, commandType)
  {
    assert chains[p.ids[k]].Terminals() == [];
    forall i | 0 <= i < k ensures !StillOpen(chains[p.ids[i]], e, commandType) {
      assert chains[p.ids[i]].Terminals() == [TerminalOf(p.arrivals[i])];
      assert p.arrivals[i].ingest < e.ingest;
    }
  }

  /** Whoever is not yet closed and issued first is the oldest open command. */
  lemma NextIsOldest(p: Pair, b: Book, k: nat, e: Event)
    requires BookOk(b) && p.Listed() && p.Timely() && p.SameIssues(b.chains) && p.Served(b.chains, k)
    requires k < |p.arrivals| && e == p.arrivals[k]
    ensures OldestOpen(b.chains, b.order, e, if e.kind.CommandResult? then CommandTypeOf(e) else None) == Some(p.ids[k])
  {
    var commandType := if e.kind.CommandResult? then CommandTypeOf(e) else None;
    OpenFromNext(p, b.chains, k, e, commandType);
    var open, issuedUs := OpenIn(b.chains, e, commandType), IssuedIn(b.chains);
    var first := p.ids[k];
    assert first in b.order && open(first);
    forall id | id in b.order && open(id) ensures id == first || issuedUs(first) < issuedUs(id) {
      OpenInPair(p, b.chains, id, e, commandType);
      var i :| 0 <= i < |p.ids| && p.ids[i] == id;
    }
    OldestIsOldest(b.order, open, issuedUs);
  }

  lemma OpenInPair(p: Pair, chains: map<Id, Chain>, id: Id, e: Event, commandType: Option<string>)
    requires p.Listed() && p.SameIssues(chains) && p.Owns(e)
    requires id in chains && StillOpen(chains[id], e, commandType)
    ensures id in p.ids
  {}

  lemma ArrivalTarget(p: Pair, b: Book, k: nat, e: Event)
    requires BookOk(b) && p.Listed() && p.Timely() && p.SameIssues(b.chains) && p.Served(b.chains, k) && p.Dispatches(b)
    requires k < |p.arrivals| && e == p.arrivals[k]
    ensures Target(b, e) == Some((p.ids[k], TerminalOf(e).how))
  {
    NextIsOldest(p, b, k, e);
    assert p.Keyless(e) && p.NoKeyLeadsHere(e);
    assert KeyedTarget(b, e).None?;
  }

  /** No other row ends a command of the pair. */
  lemma OtherTarget(p: Pair, b: Book, e: Event)
    requires BookOk(b) && p.Listed() && p.SameIssues(b.chains) && p.Dispatches(b)
    requires IsChainRow(e) && !p.Keyless(e) && (IsTerminalRow(e) ==> p.NoKeyLeadsHere(e))
    ensures Target(b, e).Some? && Target(b, e).value.0 in p.ids ==>
      !IsTerminalRow(e) && (e.kind.CommandDispatched? ==> p.OwnDispatch(e))
  {
    if Target(b, e).Some? {
      var id := Target(b, e).value.0;
      if KeyedTarget(b, e).None? {
        assert OpenIn(b.chains, e, if e.kind.CommandResult? then CommandTypeOf(e) else None)(id);
        assert id in p.ids ==> p.Owns(e);
      }
    }
  }

  /** Filing a row that is no terminal of the pair changes no terminal of the pair. */
  lemma FileOther(p: Pair, b: Book, k: nat, e: Event, target: Option<(Id, Match)>, fromUs: int, graceUs: int)
    requires IsChainRow(e) && p.SameIssues(b.chains) && p.Served(b.chains, k)
    requires target.Some? ==> target.value.0 in b.chains
    requires target.Some? && target.value.0 in p.ids ==> !IsTerminalRow(e)
    ensures p.SameIssues(FileRow(b, e, target, fromUs, graceUs).chains)
    ensures p.Served(FileRow(b, e, target, fromUs, graceUs).chains, k)
  {
    if target.Some? {
      var id := target.value.0;
      AppendTerminals(b.chains[id], e, target.value.1);
      ReplaceSame(p, b.chains, k, id, b.chains[id].Append(e, target.value.1));
    }
  }

  lemma ReplaceSame(p: Pair, chains: map<Id, Chain>, k: nat, id: Id, c: Chain)
    requires p.SameIssues(chains) && p.Served(chains, k)
    requires id in chains && c.issue == chains[id].issue
    requires id in p.ids ==> c.Terminals() == chains[id].Terminals()
    ensures p.SameIssues(chains[id := c]) && p.Served(chains[id := c], k)
  {
    hide Chain.Terminals;
  }

  /** Filing the next arrival closes the next command. */
  lemma FileArrival(p: Pair, b: Book, k: nat, e: Event, target: Option<(Id, Match)>, fromUs: int, graceUs: int)
    requires IsChainRow(e) && p.Listed() && p.SameIssues(b.chains) && p.Served(b.chains, k)
    requires k < |p.arrivals| && k < |p.ids| && e == p.arrivals[k] && IsTerminalRow(e)
    requires target == Some((p.ids[k], TerminalOf(e).how)) && p.ids[k] in b.chains
    ensures p.SameIssues(FileRow(b, e, target, fromUs, graceUs).chains)
    ensures p.Served(FileRow(b, e, target, fromUs, graceUs).chains, k + 1)
  {
    var id := p.ids[k];
    AppendTerminals(b.chains[id], e, target.value.1);
    ReplaceServed(p, b.chains, k, b.chains[id].Append(e, target.value.1));
  }

  lemma ReplaceServed(p: Pair, chains: map<Id, Chain>, k: nat, c: Chain)
    requires p.SameIssues(chains) && p.Served(chains, k) && p.Listed()
    requires k < |p.arrivals| && k < |p.ids| && p.ids[k] in chains && c.issue == chains[p.ids[k]].issue
    requires chains[p.ids[k]].Terminals() == [] ==> c.Terminals() == [TerminalOf(p.arrivals[k])]
    ensures p.SameIssues(chains[p.ids[k] := c]) && p.Served(chains[p.ids[k] := c], k + 1)
  {
    hide Chain.Terminals, TerminalOf;
  }

  lemma FileDispatches(p: Pair, b: Book, e: Event, target: Option<(Id, Match)>, fromUs: int, graceUs: int)
    requires IsChainRow(e) && e in p.events && p.Dispatches(b)
    requires target.Some? ==> target.value.0 in b.chains
    requires target.Some? && target.value.0 in p.ids && e.kind.CommandDispatched? ==> p.OwnDispatch(e)
    ensures p.Dispatches(FileRow(b, e, target, fromUs, graceUs))
  {}

  lemma ServeOne(p: Pair, b: Book, k: nat, e: Event, fromUs: int, graceUs: int)
    requires BookOk(b) && p.Listed() && p.Timely() && k <= |p.arrivals|
    requires p.SameIssues(b.chains) && p.Served(b.chains, k) && p.Dispatches(b)
    requires e in p.events && (IsTerminalRow(e) ==> p.NoKeyLeadsHere(e))
    requires p.Keyless(e) ==> k < |p.arrivals| && e == p.arrivals[k]
    ensures var next := Place(b, e, fromUs, graceUs);
      p.SameIssues(next.chains) && p.Dispatches(next)
      && p.Served(next.chains, if p.Keyless(e) then k + 1 else k)
  {
    hide Chain.Terminals, TerminalOf, FileRow, Target;
    if IsChainRow(e) {
      TargetInBook(b, e);
      if p.Keyless(e) {
        ArrivalTarget(p, b, k, e);
        FileArrival(p, b, k, e, Target(b, e), fromUs, graceUs);
      } else {
        OtherTarget(p, b, e);
        FileOther(p, b, k, e, Target(b, e), fromUs, graceUs);
      }
      FileDispatches(p, b, e, Target(b, e), fromUs, graceUs);
    }
  }

  lemma {:induction false} ServeAll(p: Pair, b: Book, k: nat, rest: seq<Event>, fromUs: int, graceUs: int)
    requires BookOk(b) && p.Listed() && p.Timely() && k <= |p.arrivals|
    requires p.SameIssues(b.chains) && p.Served(b.chains, k) && p.Dispatches(b)
    requires forall e :: e in rest ==> e in p.events && (IsTerminalRow(e) ==> p.NoKeyLeadsHere(e))
    requires Select(rest, (e: Event) => p.Keyless(e)) == p.arrivals[k..]
    ensures p.Served(PlaceAll(b, rest, fromUs, graceUs).chains, |p.arrivals|)
    decreases |rest|
  {
    if |rest| > 0 {
      var e := rest[0];
      var left := Select(rest[1..], (e: Event) => p.Keyless(e));
      assert p.arrivals[k..] == (if p.Keyless(e) then [e] else []) + left;
      if p.Keyless(e) {
        assert p.arrivals[k] == p.arrivals[k..][0] == e;
        assert p.arrivals[k + 1..] == p.arrivals[k..][1..] == left;
      }
      ServeOne(p, b, k, e, fromUs, graceUs);
      hide Pair.SameIssues, Pair.Served, Pair.Dispatches, Pair.Listed, Pair.Timely, Pair.NoKeyLeadsHere,
        Pair.Keyless, IsTerminalRow, Place;
      ServeAll(p, Place(b, e, fromUs, graceUs), if p.Keyless(e) then k + 1 else k, rest[1..], fromUs, graceUs);
    }
  }

  lemma {:induction false} EnrolledHaveNoTerminals(b: Book, events: seq<Event>)
    requires BookOk(b) && forall id :: id in b.chains ==> b.chains[id] == NewChain(b.chains[id].issue)
    ensures var r := Enroll(b, events);
      && r.dispatches == b.dispatches
      && forall id :: id in r.chains ==> r.chains[id] == NewChain(r.chains[id].issue)
    decreases |events|
  {
    if |events| > 0 {
      EnrolledHaveNoTerminals(EnrollRow(b, events[0]), events[1..]);
    }
  }

  /** FIFO: the i-th keyless terminal row closes the i-th issued command, and it
      alone, whatever rows of other commands lie between. */
  lemma FallbackIsFifo(p: Pair, fromUs: int, graceUs: int)
    requires p.Lawful()
    ensures var chains := BuildBook(p.events, fromUs, graceUs).chains;
      forall i :: 0 <= i < |p.ids| ==>
        && p.ids[i] in chains
        && chains[p.ids[i]].Terminals() == if i < |p.arrivals| then [TerminalOf(p.arrivals[i])] else []
  {
    EnrolledHaveNoTerminals(EMPTY_BOOK, p.events);
    var b := Enroll(EMPTY_BOOK, p.events);
    forall id | id in b.chains ensures b.chains[id].Terminals() == [] {
      assert b.chains[id] == NewChain(b.chains[id].issue);
    }
    assert p.arrivals[0..] == p.arrivals;
    ServeAll(p, b, 0, p.events, fromUs, graceUs);
  }
}
