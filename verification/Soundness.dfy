/** What an overall PASS says about the log, and what the log is made of. */
module Soundness {
  import opened Attach
  import opened Causes
  import opened Commands
  import opened Conservation
  import opened Events
  import opened Grade
  import opened Logs
  import opened Options
  import opened Runs

  /** A command whose rows agree with each other. */
  ghost predicate CommandSound(k: Case, c: Chain) {
    && ((exists t :: t in c.Terminals()) || k.InEndGrace(c.IssuedUs()))
    && |c.confirmed| <= 1 && |c.timedOut| <= 1
    && (|c.confirmed| > 0 ==>
          && c.timedOut == []
          && forall p :: p in c.results ==> OutcomeOf(p.row) == ACKNOWLEDGED || OutcomeOf(p.row) == SUPERSEDED)
  }

  /** No report inside a command's window fails its expectation. */
  ghost predicate ReportsSound(k: Case, c: Chain) {
    forall r :: r in k.events && r.kind.StateReported? && r.subject == c.Subject()
                && c.IssuedUs() <= r.ingest <= c.WindowEndUs() ==>
      match ExpectationFor(c)
      case None => true
      case Some((attribute, expected)) => AttributeOf(r) == Some(attribute) ==> ValuesMatch(ValueOf(r), expected)
  }

  ghost predicate RunSound(k: Case, run: Run) {
    || |run.terminals| == 1
    || (run.terminals == [] && run.triggered.Some? && k.InEndGrace(run.triggered.value.ingest))
  }

  /** A completed run's payload carries its counts; a COMPLETED one triggered in the
      window issued exactly `command_count` commands in its span, and one with
      actions issued some. */
  ghost predicate EffectSound(run: Run, order: seq<Id>, chains: map<Id, Chain>) {
    match FirstCompletion(run)
    case None => true
    case Some(term) =>
      && !IsOpaque(term) && !term.payload.finalStatus.Absent? && !term.payload.actionCount.Absent? && !term.payload.commandCount.Absent?
      && (term.payload.finalStatus == Has("COMPLETED") ==>
            && (run.triggered.Some? ==> IsNumber(term.payload.commandCount, |IssuedIds(run, term, order, chains)|))
            && !(term.payload.actionCount.Has? && term.payload.actionCount.value.Whole?
                 && term.payload.actionCount.value.n >= 1 && IsNumber(term.payload.commandCount, 0)))
  }

  ghost predicate EverythingPlaced(k: Case, unplaced: seq<Event>) {
    unplaced == [] && forall e :: e in k.events ==> !e.kind.OffCatalog?
  }

  ghost predicate ResultsReadable(k: Case) { forall e :: e in k.events ==> !IsOpaqueResult(e) }

  ghost predicate CommandsSound(k: Case, chains: map<Id, Chain>) {
    forall id :: id in chains ==> CommandSound(k, chains[id]) && ReportsSound(k, chains[id])
  }

  ghost predicate RunsSound(k: Case, order: seq<Id>, chains: map<Id, Chain>, runs: map<Option<Id>, Run>) {
    forall x :: x in runs ==> RunSound(k, runs[x]) && EffectSound(runs[x], order, chains)
  }

  ghost predicate WindowSound(k: Case) {
    var b, r := k.Book(), k.Runs();
    && EverythingPlaced(k, b.unplaced) && ResultsReadable(k)
    && CommandsSound(k, b.chains) && RunsSound(k, b.order, b.chains, r.runs)
  }

  lemma CommandWords(k: Case, c: Chain)
    ensures CommandSound(k, c) <==> !LeftOpen(k, c) && !Duplicated(c) && !Contradicts(c)
  {
    hide Chain.Terminals;
    NonEmptyHas(c.Terminals());
  }

  lemma ReportWords(k: Case, c: Chain)
    ensures ReportsSound(k, c) <==> forall r :: r in k.events ==> !Flags(c, r)
  {
    hide Chain.WindowEndUs;
    if ReportsSound(k, c) {
      forall r | r in k.events ensures !Flags(c, r) {}
    }
    if forall r :: r in k.events ==> !Flags(c, r) {
      forall r | r in k.events && r.kind.StateReported? && r.subject == c.Subject() && c.IssuedUs() <= r.ingest <= c.WindowEndUs()
        ensures match ExpectationFor(c)
                case None => true
                case Some((attribute, expected)) => AttributeOf(r) == Some(attribute) ==> ValuesMatch(ValueOf(r), expected)
      {
        assert !Flags(c, r);
      }
    }
  }

  lemma RunWords(k: Case, run: Run)
    requires run.triggered.None? ==> |run.terminals| >= 1
    ensures RunSound(k, run) <==> !RunLeftOpen(k, run) && |run.terminals| <= 1
  {}

  lemma EffectWords(run: Run, order: seq<Id>, chains: map<Id, Chain>)
    ensures EffectSound(run, order, chains) <==> EffectWord(run, order, chains) == PASS
  {
    hide FirstCompletion, IssuedIds;
  }

  ghost predicate CarriedEnded(runs: map<Option<Id>, Run>) {
    forall x :: x in runs && runs[x].triggered.None? ==> |runs[x].terminals| >= 1
  }

  lemma CloseRunEnds(b: RunBook, e: Event, fromUs: int, graceUs: int)
    requires RunsOk(b) && CarriedEnded(b.runs)
    ensures CarriedEnded(CloseRun(b, e, fromUs, graceUs).runs)
  {
    hide CarriedKey, TerminalKey;
  }

  lemma {:induction false} CloseRunsEnd(b: RunBook, events: seq<Event>, fromUs: int, graceUs: int)
    requires RunsOk(b) && CarriedEnded(b.runs)
    ensures CarriedEnded(CloseRuns(b, events, fromUs, graceUs).runs)
    decreases |events|
  {
    if |events| > 0 {
      CloseRunEnds(b, events[0], fromUs, graceUs);
      hide CarriedEnded, CloseRun;
      CloseRunsEnd(CloseRun(b, events[0], fromUs, graceUs), events[1..], fromUs, graceUs);
    }
  }

  ghost predicate AllTriggered(runs: map<Option<Id>, Run>) {
    forall x :: x in runs ==> runs[x].triggered.Some?
  }

  lemma {:induction false} OpenedRunsTriggered(b: RunBook, events: seq<Event>)
    requires RunsOk(b) && AllTriggered(b.runs)
    ensures AllTriggered(OpenRuns(b, events).runs)
    decreases |events|
  {
    if |events| > 0 {
      assert AllTriggered(OpenRun(b, events[0]).runs);
      hide AllTriggered, OpenRun;
      OpenedRunsTriggered(OpenRun(b, events[0]), events[1..]);
    }
  }

  /** A run without a trigger in the window has a terminal record. */
  lemma UntriggeredRunsEnd(k: Case)
    ensures CarriedEnded(k.Runs().runs)
  {
    OpenedRunsTriggered(EMPTY_RUNS, k.events);
    CloseRunsEnd(OpenRuns(EMPTY_RUNS, k.events), k.events, k.fromUs, k.graceUs);
  }

  lemma CommandLayer(k: Case, chains: map<Id, Chain>)
    ensures (WordI(k, chains) == PASS && WordIII(chains) == PASS && WordV(k, chains) == PASS)
       <==> ResultsReadable(k) && CommandsSound(k, chains)
  {
    forall id | id in chains
      ensures CommandSound(k, chains[id]) <==> !LeftOpen(k, chains[id]) && !Duplicated(chains[id]) && !Contradicts(chains[id])
      ensures ReportsSound(k, chains[id]) <==> forall r :: r in k.events ==> !Flags(chains[id], r)
    {
      CommandWords(k, chains[id]);
      ReportWords(k, chains[id]);
    }
    hide CommandSound, ReportsSound, LeftOpen, Duplicated, Contradicts, Flags, IsOpaqueResult;
  }

  ghost predicate RunsClosed(k: Case, runs: map<Option<Id>, Run>) {
    forall x :: x in runs ==> !RunLeftOpen(k, runs[x]) && |runs[x].terminals| <= 1
  }

  ghost predicate EffectsPass(order: seq<Id>, chains: map<Id, Chain>, runs: map<Option<Id>, Run>) {
    forall x :: x in runs ==> EffectWord(runs[x], order, chains) == PASS
  }

  lemma EffectsLayer(order: seq<Id>, chains: map<Id, Chain>, runs: map<Option<Id>, Run>)
    ensures WordVIII(order, chains, runs) == PASS <==> EffectsPass(order, chains, runs)
  {
    forall x | x in runs ensures EffectWord(runs[x], order, chains) != CANNOT_GRADE && EffectWord(runs[x], order, chains) != NOT_APPLICABLE {
      EffectWordIs(runs[x], order, chains);
      hide EffectWord;
    }
    hide EffectWord;
  }

  lemma EffectWordIs(run: Run, order: seq<Id>, chains: map<Id, Chain>)
    ensures EffectWord(run, order, chains) != CANNOT_GRADE && EffectWord(run, order, chains) != NOT_APPLICABLE
  {
    hide FirstCompletion, IssuedIds;
  }

  lemma RunLayer(k: Case, order: seq<Id>, chains: map<Id, Chain>, runs: map<Option<Id>, Run>)
    requires CarriedEnded(runs)
    ensures (WordII(k, runs) == PASS && WordVIII(order, chains, runs) == PASS) <==> RunsSound(k, order, chains, runs)
  {
    EffectsLayer(order, chains, runs);
    assert WordII(k, runs) == PASS <==> RunsClosed(k, runs) by { hide RunLeftOpen; }
    hide WordII, WordVIII;
    forall x | x in runs
      ensures RunSound(k, runs[x]) <==> !RunLeftOpen(k, runs[x]) && |runs[x].terminals| <= 1
      ensures EffectSound(runs[x], order, chains) <==> EffectWord(runs[x], order, chains) == PASS
    {
      RunWords(k, runs[x]);
      EffectWords(runs[x], order, chains);
      hide RunSound, EffectSound, RunLeftOpen, EffectWord;
    }
    hide RunSound, EffectSound, RunLeftOpen, EffectWord, CarriedEnded;
  }

  ghost predicate WordsPass(k: Case) {
    var b, r := k.Book(), k.Runs();
    && WordI(k, b.chains) == PASS && WordII(k, r.runs) == PASS && WordIII(b.chains) == PASS
    && WordIV(k, b.unplaced) == PASS && WordV(k, b.chains) == PASS && WordVIII(b.order, b.chains, r.runs) == PASS
  }

  lemma WordsIffSound(k: Case)
    ensures WordsPass(k) <==> WindowSound(k)
  {
    var b, r := k.Book(), k.Runs();
    UntriggeredRunsEnd(k);
    CommandLayer(k, b.chains);
    RunLayer(k, b.order, b.chains, r.runs);
    assert WordIV(k, b.unplaced) == PASS <==> EverythingPlaced(k, b.unplaced);
    hide WordI, WordII, WordIII, WordIV, WordV, WordVIII, CommandsSound, RunsSound, EverythingPlaced, ResultsReadable,
      BuildBook, BuildRunBook, CarriedEnded;
  }

  /** The verdict is PASS exactly when the window is sound and no attestation objects. */
  lemma PassIffSound(k: Case, attestations: seq<Word>)
    ensures Fold(Layer(k) + attestations) == PASS <==>
      WindowSound(k) && forall w :: w in attestations ==> w == PASS || w == NOT_APPLICABLE
  {
    WordsIffSound(k);
    FoldPasses(Layer(k) + attestations);
    LayerPasses(k);
    hide WordsPass, WindowSound, Fold, Layer;
    assert forall w :: w in Layer(k) + attestations <==> w in Layer(k) || w in attestations;
  }

  lemma LayerPasses(k: Case)
    ensures (forall w :: w in Layer(k) ==> w == PASS || w == NOT_APPLICABLE) <==> WordsPass(k)
  {
    LayerWords(k);
    hide WordI, WordII, WordIII, WordIV, WordV, WordVIII, BuildBook, BuildRunBook;
    var layer := Layer(k);
    assert layer[0] in layer && layer[1] in layer && layer[2] in layer && layer[3] in layer && layer[4] in layer && layer[7] in layer;
  }

  /** No invariant is ever inapplicable. */
  lemma {:induction false} LayerWords(k: Case)
    ensures var layer := Layer(k);
      && |layer| == 8 && layer[5] == PASS && layer[6] == PASS
      && (forall i :: 0 <= i < 8 ==> layer[i] != NOT_APPLICABLE)
  {
    hide Case.Book, Case.Runs, LeftOpen, Duplicated, Contradicts, Flags, EffectWord, RunLeftOpen;
  }

  // ---- the disjoint sum

  ghost predicate DistinctIssueIds(events: seq<Event>) {
    forall i, j :: 0 <= i < j < |events| && events[i].kind.CommandIssued? && events[j].kind.CommandIssued? ==>
      events[i].id != events[j].id
  }

  predicate IsIssue(e: Event) { e.kind.CommandIssued? }

  predicate IsAmbient(e: Event) { e.kind.StateReported? || e.kind.Ambient? }

  predicate IsOffCatalog(e: Event) { e.kind.OffCatalog? }

  ghost function IssuesHeld(chains: map<Id, Chain>, ids: seq<Id>): multiset<Event> {
    if |ids| == 0 then multiset{}
    else
      var id := ids[|ids| - 1];
      IssuesHeld(chains, ids[..|ids| - 1]) + (if id in chains then multiset{chains[id].issue} else multiset{})
  }

  lemma {:induction false} IssuesHeldSame(chains: map<Id, Chain>, more: map<Id, Chain>, ids: seq<Id>)
    requires forall id :: id in ids ==> id in chains && id in more && chains[id].issue == more[id].issue
    ensures IssuesHeld(chains, ids) == IssuesHeld(more, ids)
  {
    if |ids| > 0 { IssuesHeldSame(chains, more, ids[..|ids| - 1]); }
  }

  ghost predicate FreshIssues(b: Book, events: seq<Event>) {
    forall i :: 0 <= i < |events| && IsIssue(events[i]) ==> events[i].id !in b.chains
  }

  lemma EnrollRowHolds(b: Book, e: Event)
    requires BookOk(b) && (IsIssue(e) ==> e.id !in b.chains)
    ensures var r := EnrollRow(b, e);
      IssuesHeld(r.chains, r.order) == IssuesHeld(b.chains, b.order) + if IsIssue(e) then multiset{e} else multiset{}
  {
    if IsIssue(e) {
      IssuesHeldSame(b.chains, b.chains[e.id := NewChain(e)], b.order);
      assert (b.order + [e.id])[..|b.order|] == b.order;
    }
  }

  lemma RestFreshIssues(b: Book, events: seq<Event>)
    requires BookOk(b) && |events| > 0 && DistinctIssueIds(events) && FreshIssues(b, events)
    ensures DistinctIssueIds(events[1..]) && FreshIssues(EnrollRow(b, events[0]), events[1..])
  {
    assert forall i :: 0 <= i < |events[1..]| ==> events[1..][i] == events[i + 1];
  }

  lemma SumAssociates(a: multiset<Event>, b: multiset<Event>, c: multiset<Event>)
    ensures a + b + c == a + (b + c)
  {}

  lemma {:induction false} EnrollHolds(b: Book, events: seq<Event>)
    requires BookOk(b) && DistinctIssueIds(events) && FreshIssues(b, events)
    ensures var r := Enroll(b, events);
      IssuesHeld(r.chains, r.order) == IssuesHeld(b.chains, b.order) + multiset(Select(events, IsIssue))
    decreases |events|
  {
    if |events| > 0 {
      var e, rest, next := events[0], events[1..], EnrollRow(b, events[0]);
      EnrollRowHolds(b, e);
      RestFreshIssues(b, events);
      assert Select(events, IsIssue) == (if IsIssue(e) then [e] else []) + Select(rest, IsIssue);
      assert multiset(Select(events, IsIssue)) == (if IsIssue(e) then multiset{e} else multiset{}) + multiset(Select(rest, IsIssue));
      hide EnrollRow, IssuesHeld, BookOk, DistinctIssueIds, FreshIssues, Select, IsIssue;
      EnrollHolds(next, rest);
      SumAssociates(IssuesHeld(b.chains, b.order), if IsIssue(e) then multiset{e} else multiset{}, multiset(Select(rest, IsIssue)));
    }
  }

  lemma FileRowKeepsIssues(b: Book, e: Event, target: Option<(Id, Match)>, fromUs: int, graceUs: int)
    requires BookOk(b) && IsChainRow(e) && (target.Some? ==> target.value.0 in b.chains)
    ensures var r := FileRow(b, e, target, fromUs, graceUs);
      IssuesHeld(r.chains, r.order) == IssuesHeld(b.chains, b.order)
  {
    IssuesHeldSame(b.chains, FileRow(b, e, target, fromUs, graceUs).chains, b.order);
  }

  lemma {:induction false} PlaceAllKeepsIssues(b: Book, events: seq<Event>, fromUs: int, graceUs: int)
    requires BookOk(b)
    ensures var r := PlaceAll(b, events, fromUs, graceUs);
      IssuesHeld(r.chains, r.order) == IssuesHeld(b.chains, b.order)
    decreases |events|
  {
    if |events| > 0 {
      if IsChainRow(events[0]) {
        TargetInBook(b, events[0]);
        FileRowKeepsIssues(b, events[0], Target(b, events[0]), fromUs, graceUs);
      }
      PlaceAllKeepsIssues(Place(b, events[0], fromUs, graceUs), events[1..], fromUs, graceUs);
    }
  }

  ghost function SortsOf(events: seq<Event>): multiset<Event> {
    multiset(Select(events, IsIssue)) + multiset(Select(events, IsChainRow)) + multiset(Select(events, IsTrigger))
    + multiset(Select(events, IsRunTerminal)) + multiset(Select(events, IsAmbient)) + multiset(Select(events, IsOffCatalog))
  }

  lemma SelectCons(e: Event, rest: seq<Event>, p: Event -> bool)
    ensures multiset(Select([e] + rest, p)) == multiset(Select(rest, p))[e := multiset(Select(rest, p))[e] + if p(e) then 1 else 0]
  {
    assert ([e] + rest)[1..] == rest;
    assert Select([e] + rest, p) == (if p(e) then [e] else []) + Select(rest, p);
  }

  lemma SortOfOne(e: Event, rest: seq<Event>)
    ensures SortsOf([e] + rest) == multiset{e} + SortsOf(rest)
  {
    hide Select, IsIssue, IsChainRow, IsTrigger, IsRunTerminal, IsAmbient, IsOffCatalog;
    SelectCons(e, rest, IsIssue);
    SelectCons(e, rest, IsChainRow);
    SelectCons(e, rest, IsTrigger);
    SelectCons(e, rest, IsRunTerminal);
    SelectCons(e, rest, IsAmbient);
    SelectCons(e, rest, IsOffCatalog);
    OneSort(e);
  }

  lemma OneSort(e: Event)
    ensures (if IsIssue(e) then 1 else 0) + (if IsChainRow(e) then 1 else 0) + (if IsTrigger(e) then 1 else 0)
          + (if IsRunTerminal(e) then 1 else 0) + (if IsAmbient(e) then 1 else 0) + (if IsOffCatalog(e) then 1 else 0) == 1
  {}

  lemma SortsOfNothing()
    ensures SortsOf([]) == multiset{}
  {}

  lemma ConsCounts(e: Event, rest: seq<Event>)
    ensures multiset([e] + rest) == multiset{e} + multiset(rest)
  {}

  /** Every row is of exactly one sort. */
  lemma {:induction false} Sorts(events: seq<Event>)
    ensures multiset(events) == SortsOf(events)
  {
    hide SortsOf, Select;
    if |events| == 0 {
      SortsOfNothing();
      assert events == [];
    } else {
      var e, rest := events[0], events[1..];
      Sorts(rest);
      SortOfOne(e, rest);
      assert events == [e] + rest;
      ConsCounts(e, rest);
    }
  }

  /** The whole log is the disjoint sum of its issues, attached rows, sidelined rows,
      triggers, run terminals, ambient rows and off-catalog rows. */
  lemma WholeLog(k: Case)
    requires DistinctIssueIds(k.events) && DistinctRunIds(k.events)
    ensures var b, r := k.Book(), k.Runs();
      multiset(k.events) ==
        IssuesHeld(b.chains, b.order) + Held(b.chains, b.order) + multiset(b.unplaced) + multiset(b.carriedIn)
        + TriggersHeld(r.runs, r.order) + RunHeld(r.runs, r.order) + multiset(r.carriedInGrace)
        + multiset(Select(k.events, IsAmbient)) + multiset(Select(k.events, IsOffCatalog))
  {
    Sorts(k.events);
    EnrollHolds(EMPTY_BOOK, k.events);
    PlaceAllKeepsIssues(Enroll(EMPTY_BOOK, k.events), k.events, k.fromUs, k.graceUs);
    RowsConserved(k.events, k.fromUs, k.graceUs);
    RunRecordsConserved(k.events, k.fromUs, k.graceUs);
    TriggersConserved(k.events, k.fromUs, k.graceUs);
    hide Held, IssuesHeld, RunHeld, TriggersHeld, Select, BuildRunBook, PlaceAll, Enroll;
  }

  /** A PASS of (iv) leaves nothing outside the commands, the runs, the start grace
      and the ambient whitelist. */
  lemma NothingLost(k: Case)
    requires DistinctIssueIds(k.events) && DistinctRunIds(k.events) && WordIV(k, k.Book().unplaced) == PASS
    ensures var b, r := k.Book(), k.Runs();
      multiset(k.events) ==
        IssuesHeld(b.chains, b.order) + Held(b.chains, b.order) + multiset(b.carriedIn)
        + TriggersHeld(r.runs, r.order) + RunHeld(r.runs, r.order) + multiset(r.carriedInGrace)
        + multiset(Select(k.events, IsAmbient))
  {
    WholeLog(k);
    SelectEmpty(k.events, IsOffCatalog);
    hide Held, IssuesHeld, RunHeld, TriggersHeld, Select, Case.Book, Case.Runs;
  }
}
