/** `grade`: the eight invariants and the one verdict folded from them. */
module Grade {
  import opened Attach
  import opened Causes
  import opened Commands
  import opened Conservation
  import opened Events
  import opened Logs
  import opened Options
  import opened Runs

  datatype Word = PASS | FAIL | FLAGGED | CANNOT_GRADE | NOT_APPLICABLE

  /** The worst word decides; an inapplicable attestation decides nothing. */
  function Fold(layer: seq<Word>): Word {
    if CANNOT_GRADE in layer then CANNOT_GRADE
    else if FAIL in layer then FAIL
    else if FLAGGED in layer then FLAGGED
    else PASS
  }

  lemma {:induction false} FoldPasses(layer: seq<Word>)
    ensures Fold(layer) == PASS <==> forall w :: w in layer ==> w == PASS || w == NOT_APPLICABLE
  {}

  /** The graded window and what the two chain builders made of it. */
  datatype Case = Case(events: seq<Event>, fromUs: int, toUs: int, graceUs: int)
  {
    function Book(): Book { BuildBook(events, fromUs, graceUs) }

    function Runs(): RunBook { BuildRunBook(events, fromUs, graceUs) }

    predicate InEndGrace(us: int) { toUs - us <= graceUs }
  }

  // ---- (i) partition

  predicate IsOpaqueResult(e: Event) { e.kind.CommandResult? && IsOpaque(e) }

  predicate LeftOpen(k: Case, c: Chain) { |c.Terminals()| == 0 && !k.InEndGrace(c.IssuedUs()) }

  predicate EdgeOpen(k: Case, c: Chain) { |c.Terminals()| == 0 && k.InEndGrace(c.IssuedUs()) }

  predicate Duplicated(c: Chain) { |c.confirmed| > 1 || |c.timedOut| > 1 }

  ghost function WordI(k: Case, chains: map<Id, Chain>): Word {
    if exists e :: e in k.events && IsOpaqueResult(e) then CANNOT_GRADE
    else if exists id :: id in chains && (LeftOpen(k, chains[id]) || Duplicated(chains[id])) then FAIL
    else PASS
  }

  function KindCount(ts: seq<Terminal>, kind: TerminalKind): nat {
    |Select(ts, (t: Terminal) => t.kind == kind)|
  }

  lemma CountPush(s: seq<Terminal>, t: Terminal, kind: TerminalKind)
    ensures KindCount(s + [t], kind) == KindCount(s, kind) + if t.kind == kind then 1 else 0
  {
    SelectPush(s, t, (t: Terminal) => t.kind == kind);
  }

  lemma {:induction false} InsertCount(s: seq<Terminal>, t: Terminal, kind: TerminalKind)
    ensures KindCount(InsertTerminal(s, t), kind) == KindCount(s, kind) + if t.kind == kind then 1 else 0
  {
    hide KindCount;
    if |s| == 0 || s[|s| - 1].row.position <= t.row.position {
      CountPush(s, t, kind);
    } else {
      var front, last := s[..|s| - 1], s[|s| - 1];
      InsertCount(front, t, kind);
      CountPush(front, last, kind);
      CountPush(InsertTerminal(front, t), last, kind);
      assert s == front + [last];
    }
  }

  lemma {:induction false} SortCount(s: seq<Terminal>, kind: TerminalKind)
    ensures KindCount(SortTerminals(s), kind) == KindCount(s, kind)
  {
    if |s| > 0 {
      hide KindCount;
      var front, last := s[..|s| - 1], s[|s| - 1];
      SortCount(front, kind);
      InsertCount(SortTerminals(front), last, kind);
      CountPush(front, last, kind);
      assert s == front + [last];
    }
  }

  lemma {:induction false} TagCount(ps: seq<Placed>, own: TerminalKind, kind: TerminalKind)
    ensures KindCount(Tag(ps, own), kind) == if own == kind then |ps| else 0
  {
    if |ps| > 0 {
      TagCount(ps[1..], own, kind);
      assert Tag(ps, own)[1..] == Tag(ps[1..], own);
    }
  }

  /** Counting terminals by kind counts the lists they came from. */
  lemma TerminalCounts(c: Chain)
    ensures KindCount(c.Terminals(), ByConfirmation) == |c.confirmed|
    ensures KindCount(c.Terminals(), ByTimeout) == |c.timedOut|
  {
    var x, y, z := Tag(c.confirmed, ByConfirmation), Tag(c.timedOut, ByTimeout), Tag(c.TerminalResults(), ByResult);
    forall kind: TerminalKind
      ensures KindCount(c.Terminals(), kind) == KindCount(x, kind) + KindCount(y, kind) + KindCount(z, kind)
    {
      SortCount(c.Unsorted(), kind);
      SelectAppend(x + y, z, (t: Terminal) => t.kind == kind);
      SelectAppend(x, y, (t: Terminal) => t.kind == kind);
    }
    TagCount(c.confirmed, ByConfirmation, ByConfirmation);
    TagCount(c.confirmed, ByConfirmation, ByTimeout);
    TagCount(c.timedOut, ByTimeout, ByConfirmation);
    TagCount(c.timedOut, ByTimeout, ByTimeout);
    TagCount(c.TerminalResults(), ByResult, ByConfirmation);
    TagCount(c.TerminalResults(), ByResult, ByTimeout);
  }

  function LeftOpenIds(k: Case, ids: seq<Id>, chains: map<Id, Chain>): seq<Id> {
    Select(ids, id => id in chains && LeftOpen(k, chains[id]))
  }

  function EdgeOpenIds(k: Case, ids: seq<Id>, chains: map<Id, Chain>): seq<Id> {
    Select(ids, id => id in chains && EdgeOpen(k, chains[id]))
  }

  function DuplicatesOf(id: Id, c: Chain): seq<(Id, TerminalKind, nat)> {
    (if |c.confirmed| > 1 then [(id, ByConfirmation, |c.confirmed|)] else [])
    + (if |c.timedOut| > 1 then [(id, ByTimeout, |c.timedOut|)] else [])
  }

  function AllDuplicates(ids: seq<Id>, chains: map<Id, Chain>): seq<(Id, TerminalKind, nat)> {
    if |ids| == 0 then []
    else
      var id := ids[|ids| - 1];
      AllDuplicates(ids[..|ids| - 1], chains) + if id in chains then DuplicatesOf(id, chains[id]) else []
  }

  lemma {:induction false} NoDuplicates(ids: seq<Id>, chains: map<Id, Chain>)
    ensures AllDuplicates(ids, chains) == [] <==> forall id :: id in ids && id in chains ==> !Duplicated(chains[id])
  {
    if |ids| > 0 {
      NoDuplicates(ids[..|ids| - 1], chains);
      assert forall x :: x in ids <==> x in ids[..|ids| - 1] || x == ids[|ids| - 1];
    }
  }

  method GradeCommand(k: Case, id: Id, c: Chain) returns (left: bool, edge: bool, duplicates: seq<(Id, TerminalKind, nat)>)
    ensures left == LeftOpen(k, c) && edge == EdgeOpen(k, c) && duplicates == DuplicatesOf(id, c)
  {
    var terms := c.Terminals();
    TerminalCounts(c);
    hide Chain.Terminals, KindCount;
    duplicates := [];
    var confirmations, timeouts := KindCount(terms, ByConfirmation), KindCount(terms, ByTimeout);
    if confirmations > 1 { duplicates := duplicates + [(id, ByConfirmation, confirmations)]; }
    if timeouts > 1 { duplicates := duplicates + [(id, ByTimeout, timeouts)]; }
    edge := |terms| == 0 && k.toUs - c.IssuedUs() <= k.graceUs;
    left := |terms| == 0 && !edge;
  }

  lemma WordIFromLists(k: Case, order: seq<Id>, chains: map<Id, Chain>)
    requires forall id :: id in order <==> id in chains
    ensures WordI(k, chains) ==
      if |Select(k.events, IsOpaqueResult)| > 0 then CANNOT_GRADE
      else if |LeftOpenIds(k, order, chains)| > 0 || |AllDuplicates(order, chains)| > 0 then FAIL
      else PASS
  {
    SelectEmpty(k.events, IsOpaqueResult);
    SelectEmpty(order, id => id in chains && LeftOpen(k, chains[id]));
    NoDuplicates(order, chains);
    hide Select, AllDuplicates, LeftOpen, Duplicated, IsOpaqueResult;
  }

  method GradePartition(k: Case, order: seq<Id>, chains: map<Id, Chain>)
    returns (word: Word, openIds: seq<Id>, edgeOpen: seq<Id>, duplicates: seq<(Id, TerminalKind, nat)>)
    requires forall id :: id in order <==> id in chains
    ensures word == WordI(k, chains)
    ensures openIds == LeftOpenIds(k, order, chains) && edgeOpen == EdgeOpenIds(k, order, chains)
    ensures duplicates == AllDuplicates(order, chains)
  {
    hide LeftOpen, EdgeOpen, DuplicatesOf;
    openIds, edgeOpen, duplicates := [], [], [];
    assert order[..0] == [];
    for i := 0 to |order|
      invariant openIds == LeftOpenIds(k, order[..i], chains) && edgeOpen == EdgeOpenIds(k, order[..i], chains)
      invariant duplicates == AllDuplicates(order[..i], chains)
    {
      var id := order[i];
      assert order[..i + 1] == order[..i] + [id];
      assert order[..i + 1][..i] == order[..i];
      SelectPush(order[..i], id, id => id in chains && LeftOpen(k, chains[id]));
      SelectPush(order[..i], id, id => id in chains && EdgeOpen(k, chains[id]));
      var left, edge, more := GradeCommand(k, id, chains[id]);
      if left { openIds := openIds + [id]; }
      if edge { edgeOpen := edgeOpen + [id]; }
      duplicates := duplicates + more;
    }
    assert order[..|order|] == order;
    WordIFromLists(k, order, chains);
    var opaqueResults := Select(k.events, IsOpaqueResult);
    word := if |opaqueResults| > 0 then CANNOT_GRADE else if |openIds| > 0 || |duplicates| > 0 then FAIL else PASS;
  }

  // ---- (ii) terminality

  predicate RunLeftOpen(k: Case, run: Run) {
    run.triggered.Some? && |run.terminals| == 0 && !k.InEndGrace(run.triggered.value.ingest)
  }

  predicate RunEdgeOpen(k: Case, run: Run) {
    run.triggered.Some? && |run.terminals| == 0 && k.InEndGrace(run.triggered.value.ingest)
  }

  ghost function WordII(k: Case, runs: map<Option<Id>, Run>): Word {
    if exists r :: r in runs && (RunLeftOpen(k, runs[r]) || |runs[r].terminals| > 1) then FAIL else PASS
  }

  function LeftOpenRuns(k: Case, keys: seq<Option<Id>>, runs: map<Option<Id>, Run>): seq<Option<Id>> {
    Select(keys, r => r in runs && RunLeftOpen(k, runs[r]))
  }

  function EdgeOpenRuns(k: Case, keys: seq<Option<Id>>, runs: map<Option<Id>, Run>): seq<Option<Id>> {
    Select(keys, r => r in runs && RunEdgeOpen(k, runs[r]))
  }

  function DuplicateRuns(keys: seq<Option<Id>>, runs: map<Option<Id>, Run>): seq<Option<Id>> {
    Select(keys, r => r in runs && |runs[r].terminals| > 1)
  }

  lemma WordIIFromLists(k: Case, order: seq<Option<Id>>, runs: map<Option<Id>, Run>)
    requires forall r :: r in order <==> r in runs
    ensures WordII(k, runs) == if |LeftOpenRuns(k, order, runs)| > 0 || |DuplicateRuns(order, runs)| > 0 then FAIL else PASS
  {
    SelectEmpty(order, r => r in runs && RunLeftOpen(k, runs[r]));
    SelectEmpty(order, r => r in runs && |runs[r].terminals| > 1);
    hide Select, RunLeftOpen;
  }

  method GradeTerminality(k: Case, order: seq<Option<Id>>, runs: map<Option<Id>, Run>)
    returns (word: Word, openRuns: seq<Option<Id>>, edgeRuns: seq<Option<Id>>, duplicates: seq<Option<Id>>)
    requires forall r :: r in order <==> r in runs
    ensures word == WordII(k, runs)
    ensures openRuns == LeftOpenRuns(k, order, runs) && edgeRuns == EdgeOpenRuns(k, order, runs)
    ensures duplicates == DuplicateRuns(order, runs)
  {
    openRuns, edgeRuns, duplicates := [], [], [];
    assert order[..0] == [];
    for i := 0 to |order|
      invariant openRuns == LeftOpenRuns(k, order[..i], runs) && edgeRuns == EdgeOpenRuns(k, order[..i], runs)
      invariant duplicates == DuplicateRuns(order[..i], runs)
    {
      var r, run := order[i], runs[order[i]];
      assert order[..i + 1] == order[..i] + [r];
      SelectPush(order[..i], r, r => r in runs && RunLeftOpen(k, runs[r]));
      SelectPush(order[..i], r, r => r in runs && RunEdgeOpen(k, runs[r]));
      SelectPush(order[..i], r, r => r in runs && |runs[r].terminals| > 1);
      if run.triggered.Some? && |run.terminals| == 0 {
        if k.toUs - run.triggered.value.ingest <= k.graceUs { edgeRuns := edgeRuns + [r]; } else { openRuns := openRuns + [r]; }
      }
      if |run.terminals| > 1 { duplicates := duplicates + [r]; }
    }
    assert order[..|order|] == order;
    WordIIFromLists(k, order, runs);
    word := if |openRuns| > 0 || |duplicates| > 0 then FAIL else PASS;
  }

  // ---- (iii) no unflagged unconfirmed

  predicate Contradicts(c: Chain) {
    && |c.confirmed| > 0
    && (|c.timedOut| > 0 || exists p :: p in c.results && OutcomeOf(p.row) != ACKNOWLEDGED && OutcomeOf(p.row) != SUPERSEDED)
  }

  ghost function WordIII(chains: map<Id, Chain>): Word {
    if exists id :: id in chains && Contradicts(chains[id]) then FAIL else PASS
  }

  method GradeContradictions(order: seq<Id>, chains: map<Id, Chain>) returns (word: Word, contradictions: seq<Id>)
    requires forall id :: id in order <==> id in chains
    ensures word == WordIII(chains)
    ensures contradictions == Select(order, id => id in chains && Contradicts(chains[id]))
  {
    contradictions := [];
    assert order[..0] == [];
    for i := 0 to |order|
      invariant contradictions == Select(order[..i], id => id in chains && Contradicts(chains[id]))
    {
      var id, c := order[i], chains[order[i]];
      assert order[..i + 1] == order[..i] + [id];
      SelectPush(order[..i], id, id => id in chains && Contradicts(chains[id]));
      var nonConfirmed := |c.timedOut| > 0
        || |Select(c.results, (p: Placed) => OutcomeOf(p.row) != ACKNOWLEDGED && OutcomeOf(p.row) != SUPERSEDED)| > 0;
      NonEmptyHas(Select(c.results, (p: Placed) => OutcomeOf(p.row) != ACKNOWLEDGED && OutcomeOf(p.row) != SUPERSEDED));
      if |c.confirmed| > 0 && nonConfirmed { contradictions := contradictions + [id]; }
    }
    assert order[..|order|] == order;
    hide Contradicts;
    NonEmptyHas(contradictions);
    word := if |contradictions| > 0 then FAIL else PASS;
  }

  // ---- (iv) completeness

  ghost function WordIV(k: Case, unplacedRows: seq<Event>): Word {
    if (exists e :: e in k.events && e.kind.OffCatalog?) || |unplacedRows| > 0 then CANNOT_GRADE else PASS
  }

  function OffCatalogIn(events: seq<Event>): seq<Event> { Select(events, (e: Event) => e.kind.OffCatalog?) }

  function AmbientIn(events: seq<Event>): seq<Event> {
    Select(events, (e: Event) => e.kind.StateReported? || e.kind.Ambient?)
  }

  lemma SortedIn(events: seq<Event>, e: Event)
    ensures OffCatalogIn(events + [e]) == OffCatalogIn(events) + if e.kind.OffCatalog? then [e] else []
    ensures AmbientIn(events + [e]) == AmbientIn(events) + if e.kind.StateReported? || e.kind.Ambient? then [e] else []
  {
    SelectPush(events, e, (e: Event) => e.kind.OffCatalog?);
    SelectPush(events, e, (e: Event) => e.kind.StateReported? || e.kind.Ambient?);
  }

  lemma WordIVFromLists(k: Case, unplacedRows: seq<Event>)
    ensures WordIV(k, unplacedRows) == if |OffCatalogIn(k.events)| + |unplacedRows| > 0 then CANNOT_GRADE else PASS
  {
    SelectEmpty(k.events, (e: Event) => e.kind.OffCatalog?);
  }

  predicate Carried(events: seq<Event>, id: Id) { exists e :: e in events && e.id == id }

  /** The position of the first row that carries the id. */
  function FirstPosition(events: seq<Event>, id: Id): int
    requires Carried(events, id)
  {
    if events[0].id == id then events[0].position else FirstPosition(events[1..], id)
  }

  /** `sort(key=...)` by that position: stable, by insertion. */
  function InsertByFirst(s: seq<Event>, e: Event, events: seq<Event>): (r: seq<Event>)
    requires Carried(events, e.id) && forall x :: x in s ==> Carried(events, x.id)
    ensures multiset(r) == multiset(s) + multiset{e} && forall x :: x in r <==> x == e || x in s
  {
    if |s| == 0 || FirstPosition(events, s[|s| - 1].id) <= FirstPosition(events, e.id) then s + [e]
    else
      assert s == s[..|s| - 1] + [s[|s| - 1]];
      InsertByFirst(s[..|s| - 1], e, events) + [s[|s| - 1]]
  }

  function SortByFirst(s: seq<Event>, events: seq<Event>): (r: seq<Event>)
    requires forall x :: x in s ==> Carried(events, x.id)
    ensures multiset(r) == multiset(s) && forall x :: x in r <==> x in s
  {
    if |s| == 0 then []
    else
      assert s == s[..|s| - 1] + [s[|s| - 1]];
      InsertByFirst(SortByFirst(s[..|s| - 1], events), s[|s| - 1], events)
  }

  ghost predicate ByFirst(s: seq<Event>, events: seq<Event>)
    requires forall x :: x in s ==> Carried(events, x.id)
  {
    forall i, j :: 0 <= i < j < |s| ==> FirstPosition(events, s[i].id) <= FirstPosition(events, s[j].id)
  }

  lemma {:induction false} InsertByFirstInOrder(s: seq<Event>, e: Event, events: seq<Event>)
    requires Carried(events, e.id) && (forall x :: x in s ==> Carried(events, x.id)) && ByFirst(s, events)
    ensures ByFirst(InsertByFirst(s, e, events), events)
  {
    hide FirstPosition, Carried;
    if |s| > 0 && FirstPosition(events, s[|s| - 1].id) > FirstPosition(events, e.id) {
      InsertByFirstInOrder(s[..|s| - 1], e, events);
      var r := InsertByFirst(s[..|s| - 1], e, events);
      forall x | x in r ensures FirstPosition(events, x.id) <= FirstPosition(events, s[|s| - 1].id) {
        if x != e { var i :| 0 <= i < |s| - 1 && s[i] == x; }
      }
    }
  }

  /** The unplaced rows are listed in the order in which their ids first appear in the log. */
  lemma {:induction false} SortByFirstInOrder(s: seq<Event>, events: seq<Event>)
    requires forall x :: x in s ==> Carried(events, x.id)
    ensures ByFirst(SortByFirst(s, events), events)
  {
    hide FirstPosition, Carried;
    if |s| > 0 {
      SortByFirstInOrder(s[..|s| - 1], events);
      InsertByFirstInOrder(SortByFirst(s[..|s| - 1], events), s[|s| - 1], events);
    }
  }

  /** What the book left unplaced are rows of the log. */
  lemma UnplacedAreRows(k: Case)
    ensures forall e :: e in k.Book().unplaced ==> e in k.events
  {
    hide BuildBook;
    RowsConserved(k.events, k.fromUs, k.graceUs);
    forall e | e in k.Book().unplaced
      ensures e in k.events
    {
      assert Placement(k.Book())[e] >= multiset(k.Book().unplaced)[e] > 0;
      assert e in Select(k.events, IsChainRow);
    }
  }

  lemma CarriedInLog(events: seq<Event>, rows: seq<Event>)
    requires forall e :: e in rows ==> e in events
    ensures forall e :: e in rows ==> Carried(events, e.id)
  {
  }

  method GradeCompleteness(k: Case, unplacedRows: seq<Event>)
    returns (word: Word, unplaced: seq<Event>, ambient: nat)
    requires forall e :: e in unplacedRows ==> e in k.events
    ensures word == WordIV(k, unplacedRows)
    ensures multiset(unplaced) == multiset(OffCatalogIn(k.events)) + multiset(unplacedRows)
    ensures (forall e :: e in unplaced ==> Carried(k.events, e.id)) && ByFirst(unplaced, k.events)
    ensures unplaced == SortByFirst(OffCatalogIn(k.events) + unplacedRows, k.events)
    ensures ambient == |AmbientIn(k.events)|
  {
    WordIVFromLists(k, unplacedRows);
    assert OffCatalogIn([]) == [] && AmbientIn([]) == [];
    CarriedInLog(k.events, OffCatalogIn(k.events) + unplacedRows);
    hide OffCatalogIn, AmbientIn, SortByFirst, WordIV, Carried, ByFirst;
    var offCatalog: seq<Event> := [];
    ambient := 0;
    assert k.events[..0] == [];
    for i := 0 to |k.events|
      invariant offCatalog == OffCatalogIn(k.events[..i]) && ambient == |AmbientIn(k.events[..i])|
    {
      var e := k.events[i];
      assert k.events[..i + 1] == k.events[..i] + [e];
      SortedIn(k.events[..i], e);
      if e.kind.OffCatalog? { offCatalog := offCatalog + [e]; }
      else if e.kind.StateReported? || e.kind.Ambient? { ambient := ambient + 1; }
    }
    assert k.events[..|k.events|] == k.events;
    unplaced := SortByFirst(offCatalog + unplacedRows, k.events);
    SortByFirstInOrder(offCatalog + unplacedRows, k.events);
    word := if |unplaced| > 0 then CANNOT_GRADE else PASS;
  }

  // ---- (v) the mismatched-report flag

  /** A confirmed command states its own expectation; else the command type does. */
  function ExpectationFor(c: Chain): Option<(string, Reading)> {
    if |c.confirmed| > 0 && AttributeOf(c.confirmed[0].row).Some? && ExpectedValueOf(c.confirmed[0].row).Some?
    then Some((AttributeOf(c.confirmed[0].row).value, ExpectedValueOf(c.confirmed[0].row).value))
    else ExpectationOf(c.CommandType())
  }

  /** The report lies in the command's window, on its attribute, and fails its expectation. */
  predicate Flags(c: Chain, r: Event) {
    && ExpectationFor(c).Some?
    && r.kind.StateReported? && r.subject == c.Subject()
    && c.IssuedUs() <= r.ingest <= c.WindowEndUs()
    && AttributeOf(r) == Some(ExpectationFor(c).value.0)
    && !ValuesMatch(ValueOf(r), ExpectationFor(c).value.1)
  }

  function FlaggedBy(c: Chain, events: seq<Event>): seq<Event> { Select(events, (r: Event) => Flags(c, r)) }

  ghost function WordV(k: Case, chains: map<Id, Chain>): Word {
    if exists id, r :: id in chains && r in k.events && Flags(chains[id], r) then FLAGGED else PASS
  }

  method FlagCommand(c: Chain, reports: seq<Event>) returns (flagged: seq<Event>)
    requires forall r :: r in reports ==> r.kind.StateReported?
    ensures flagged == FlaggedBy(c, reports)
  {
    flagged := [];
    if ExpectationFor(c).None? {
      SelectNone(reports, (r: Event) => Flags(c, r));
      return;
    }
    var (attribute, expected) := ExpectationFor(c).value;
    var endUs := c.WindowEndUs();
    assert reports[..0] == [];
    for i := 0 to |reports|
      invariant flagged == FlaggedBy(c, reports[..i])
    {
      var r := reports[i];
      assert reports[..i + 1] == reports[..i] + [r];
      SelectPush(reports[..i], r, (r: Event) => Flags(c, r));
      hide Chain.WindowEndUs, ExpectationFor;
      if r.subject != c.Subject() { continue; }
      if !(c.IssuedUs() <= r.ingest <= endUs) { continue; }
      if AttributeOf(r) != Some(attribute) { continue; }
      if !ValuesMatch(ValueOf(r), expected) { flagged := flagged + [r]; }
    }
    assert reports[..|reports|] == reports;
  }

  /** The flagged reports of every command, in book order. */
  function AllFlagged(ids: seq<Id>, chains: map<Id, Chain>, events: seq<Event>): seq<(Id, Event)> {
    if |ids| == 0 then []
    else
      var id := ids[|ids| - 1];
      AllFlagged(ids[..|ids| - 1], chains, events)
      + if id in chains then PairUp(id, FlaggedBy(chains[id], events)) else []
  }

  function PairUp(id: Id, rs: seq<Event>): (ps: seq<(Id, Event)>)
    ensures |ps| == |rs|
  {
    seq(|rs|, i requires 0 <= i < |rs| => (id, rs[i]))
  }

  lemma {:induction false} NoneFlagged(ids: seq<Id>, chains: map<Id, Chain>, events: seq<Event>)
    ensures AllFlagged(ids, chains, events) == []
       <==> forall id, r :: id in ids && id in chains && r in events ==> !Flags(chains[id], r)
  {
    if |ids| > 0 {
      var front, id := ids[..|ids| - 1], ids[|ids| - 1];
      NoneFlagged(front, chains, events);
      assert forall x :: x in ids <==> x in front || x == id;
      if id in chains { SelectEmpty(events, (r: Event) => Flags(chains[id], r)); }
      hide Flags, Select;
      assert AllFlagged(ids, chains, events) == [] <==>
        AllFlagged(front, chains, events) == [] && (id in chains ==> FlaggedBy(chains[id], events) == []);
    }
  }

  method GradeReports(k: Case, order: seq<Id>, chains: map<Id, Chain>)
    returns (word: Word, flagged: seq<(Id, Event)>, unchecked: nat)
    requires forall id :: id in order <==> id in chains
    ensures word == WordV(k, chains)
    ensures flagged == AllFlagged(order, chains, k.events)
  {
    hide Flags, ExpectationFor;
    flagged, unchecked := [], 0;
    var reports := Select(k.events, (e: Event) => e.kind.StateReported?);
    assert order[..0] == [];
    for i := 0 to |order|
      invariant flagged == AllFlagged(order[..i], chains, k.events)
    {
      var c := chains[order[i]];
      assert order[..i + 1][..i] == order[..i];
      var rs := FlagCommand(c, reports);
      ReportsSuffice(c, k.events);
      if ExpectationFor(c).None? { unchecked := unchecked + 1; }
      flagged := flagged + PairUp(order[i], rs);
    }
    assert order[..|order|] == order;
    NoneFlagged(order, chains, k.events);
    word := if |flagged| > 0 then FLAGGED else PASS;
  }

  lemma ReportsSuffice(c: Chain, events: seq<Event>)
    ensures FlaggedBy(c, Select(events, (e: Event) => e.kind.StateReported?)) == FlaggedBy(c, events)
  {
    SelectSelect(events, (e: Event) => e.kind.StateReported?, (r: Event) => Flags(c, r), (r: Event) => Flags(c, r));
  }

  // ---- (viii) action-effect

  predicate IsNumber(c: Slot<Count>, n: int) {
    c.Has? && (c.value == Whole(n) || (c.value.Fraction? && c.value.x == n as real))
  }

  function FirstCompletion(run: Run): Option<Event> {
    var completed := SortRows(Select(run.terminals, (e: Event) => e.kind.AutomationCompleted?));
    if |completed| == 0 then None else Some(completed[0])
  }

  /** The commands a run issued: its correlation, inside its span. */
  predicate IssuedBy(run: Run, term: Event, c: Chain) {
    && run.triggered.Some? && c.Correlation() == run.triggered.value.correlation
    && run.triggered.value.ingest <= c.IssuedUs() <= term.ingest
  }

  function IssuedIds(run: Run, term: Event, order: seq<Id>, chains: map<Id, Chain>): seq<Id> {
    Select(order, id => id in chains && IssuedBy(run, term, chains[id]))
  }

  function EffectWord(run: Run, order: seq<Id>, chains: map<Id, Chain>): Word {
    match FirstCompletion(run)
    case None => PASS   // cancelled or still open
    case Some(term) =>
      if IsOpaque(term) || term.payload.finalStatus.Absent? || term.payload.actionCount.Absent? || term.payload.commandCount.Absent? then FAIL
      else
        var completed, count := term.payload.finalStatus == Has("COMPLETED"), term.payload.commandCount;
        if completed && term.payload.actionCount.Has? && term.payload.actionCount.value.Whole?
           && term.payload.actionCount.value.n >= 1 && IsNumber(count, 0) then FLAGGED
        else if completed && run.triggered.Some? && !IsNumber(count, |IssuedIds(run, term, order, chains)|) then FAIL
        else PASS
  }

  ghost function WordVIII(order: seq<Id>, chains: map<Id, Chain>, runs: map<Option<Id>, Run>): Word {
    if exists r :: r in runs && EffectWord(runs[r], order, chains) == FAIL then FAIL
    else if exists r :: r in runs && EffectWord(runs[r], order, chains) == FLAGGED then FLAGGED
    else PASS
  }

  function RunsWith(word: Word, keys: seq<Option<Id>>, order: seq<Id>, chains: map<Id, Chain>, runs: map<Option<Id>, Run>): seq<Option<Id>> {
    Select(keys, r => r in runs && EffectWord(runs[r], order, chains) == word)
  }

  lemma RunsWithNone(order: seq<Id>, chains: map<Id, Chain>, runs: map<Option<Id>, Run>)
    ensures forall word :: RunsWith(word, [], order, chains, runs) == []
  {
    hide EffectWord;
  }

  lemma RunsWithPush(word: Word, keys: seq<Option<Id>>, r: Option<Id>, order: seq<Id>, chains: map<Id, Chain>, runs: map<Option<Id>, Run>)
    requires r in runs
    ensures RunsWith(word, keys + [r], order, chains, runs)
         == RunsWith(word, keys, order, chains, runs) + if EffectWord(runs[r], order, chains) == word then [r] else []
  {
    hide EffectWord;
    SelectPush(keys, r, r => r in runs && EffectWord(runs[r], order, chains) == word);
  }

  lemma WordVIIIFromLists(runOrder: seq<Option<Id>>, order: seq<Id>, chains: map<Id, Chain>, runs: map<Option<Id>, Run>)
    requires forall r :: r in runOrder <==> r in runs
    ensures WordVIII(order, chains, runs) ==
      if |RunsWith(FAIL, runOrder, order, chains, runs)| > 0 then FAIL
      else if |RunsWith(FLAGGED, runOrder, order, chains, runs)| > 0 then FLAGGED else PASS
  {
    hide EffectWord;
    SelectEmpty(runOrder, r => r in runs && EffectWord(runs[r], order, chains) == FAIL);
    SelectEmpty(runOrder, r => r in runs && EffectWord(runs[r], order, chains) == FLAGGED);
    hide Select;
  }

  method GradeEffects(order: seq<Id>, chains: map<Id, Chain>, runOrder: seq<Option<Id>>, runs: map<Option<Id>, Run>)
    returns (word: Word, flagged: seq<Option<Id>>, failed: seq<Option<Id>>)
    requires forall r :: r in runOrder <==> r in runs
    ensures word == WordVIII(order, chains, runs)
    ensures failed == RunsWith(FAIL, runOrder, order, chains, runs)
    ensures flagged == RunsWith(FLAGGED, runOrder, order, chains, runs)
  {
    hide EffectWord, RunsWith, WordVIII;
    flagged, failed := [], [];
    assert runOrder[..0] == [];
    RunsWithNone(order, chains, runs);
    for i := 0 to |runOrder|
      invariant failed == RunsWith(FAIL, runOrder[..i], order, chains, runs)
      invariant flagged == RunsWith(FLAGGED, runOrder[..i], order, chains, runs)
    {
      var r := runOrder[i];
      assert runOrder[..i + 1] == runOrder[..i] + [r];
      RunsWithPush(FAIL, runOrder[..i], r, order, chains, runs);
      RunsWithPush(FLAGGED, runOrder[..i], r, order, chains, runs);
      var w := EffectWord(runs[r], order, chains);
      if w == FLAGGED { flagged := flagged + [r]; } else if w == FAIL { failed := failed + [r]; }
    }
    assert runOrder[..|runOrder|] == runOrder;
    WordVIIIFromLists(runOrder, order, chains, runs);
    word := if |failed| > 0 then FAIL else if |flagged| > 0 then FLAGGED else PASS;
  }

  // ---- the fold

  /** The eight words, (i) to (viii). */
  ghost function Layer(k: Case): seq<Word> {
    var b, r := k.Book(), k.Runs();
    [WordI(k, b.chains), WordII(k, r.runs), WordIII(b.chains), WordIV(k, b.unplaced), WordV(k, b.chains),
     PASS, PASS, WordVIII(b.order, b.chains, r.runs)]
  }

  /** One window, graded: the attestations' words join the layer. */
  method GradeWindow(k: Case, attestations: seq<Word>) returns (verdict: Word)
    ensures verdict == Fold(Layer(k) + attestations)
  {
    var order, commands, unplacedRows, _ := BuildCommands(k.events, k.fromUs, k.graceUs);
    var chains := Views(commands);
    UnplacedAreRows(k);
    var runOrder, runs, _ := BuildRuns(k.events, k.fromUs, k.graceUs);
    var i, _, _, _ := GradePartition(k, order, chains);
    var ii, _, _, _ := GradeTerminality(k, runOrder, runs);
    var iii, _ := GradeContradictions(order, chains);
    var iv, _, _ := GradeCompleteness(k, unplacedRows);
    var v, _, _ := GradeReports(k, order, chains);
    var viii, _, _ := GradeEffects(order, chains, runOrder, runs);
    verdict := Fold([i, ii, iii, iv, v, PASS, PASS, viii] + attestations);
  }
}
