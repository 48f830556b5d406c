/** The verdict of a window, word by word, by the rows that decide it. */
module Grading {
  import opened Attach
  import opened Causes
  import opened Commands
  import opened Events
  import opened Grade
  import opened Logs
  import opened Options
  import opened Runs

  // ---------------------------------------------------------------- commands

  /** Nothing ends the command, and it was issued longer than the grace before the end. */
  ghost predicate Unfinished(k: Case, c: Chain) { (forall e :: !Ends(c, e)) && k.toUs - c.issue.ingest > k.graceUs }

  predicate Doubled(c: Chain) { |c.confirmed| >= 2 || |c.timedOut| >= 2 }

  /** Confirmed, and yet timed out or answered with anything but an acknowledgement or a supersession;
      a result that cannot be read counts against it. */
  predicate AtOdds(c: Chain) {
    && c.confirmed != []
    && (c.timedOut != []
        || exists p :: p in c.results
             && (IsOpaque(p.row) || (p.row.payload.outcome != Some("acknowledged") && p.row.payload.outcome != Some("superseded"))))
  }

  /** The first confirmation states what it expected. */
  predicate Stated(c: Chain) {
    c.confirmed != [] && !IsOpaque(c.confirmed[0].row)
    && c.confirmed[0].row.payload.attributeKey.Some? && c.confirmed[0].row.payload.expectedValue.Some?
  }

  /** What a command's reports should read: what its first confirmation states, else what its type asks. */
  predicate Expects(c: Chain, attribute: string, value: Reading) {
    if Stated(c) then
      c.confirmed[0].row.payload.attributeKey == Some(attribute) && c.confirmed[0].row.payload.expectedValue == Some(value)
    else
      !IsOpaque(c.issue) && attribute == "on"
      && ((c.issue.payload.commandType == Some("turn_on") && value == Reading("true", None))
          || (c.issue.payload.commandType == Some("turn_off") && value == Reading("false", None)))
  }

  /** A report of the subject between the issue and the end of the pending window, on the expected
      attribute, that is neither the same text nor the same number. */
  predicate Misreports(c: Chain, r: Event, attribute: string, value: Reading) {
    && Expects(c, attribute, value)
    && r.kind.StateReported? && r.subject == c.issue.subject && c.issue.ingest <= r.ingest <= c.WindowEndUs()
    && !IsOpaque(r) && r.payload.attributeKey == Some(attribute)
    && !(r.payload.value.Some?
         && (r.payload.value.value.text == value.text
             || (r.payload.value.value.number.Some? && r.payload.value.value.number == value.number)))
  }

  ghost predicate OffExpectation(c: Chain, r: Event) { exists attribute, value :: Misreports(c, r, attribute, value) }

  lemma LeftOpenIs(k: Case, c: Chain)
    ensures LeftOpen(k, c) <==> Unfinished(k, c)
    ensures EdgeOpen(k, c) <==> (forall e :: !Ends(c, e)) && k.toUs - c.issue.ingest <= k.graceUs
  {
    hide Chain.Terminals, Ends;
    if |c.Terminals()| > 0 {
      assert c.Terminals()[0] in c.Terminals();
      TerminalEnds(c, c.Terminals()[0]);
    } else {
      forall e ensures !Ends(c, e) {
        if Ends(c, e) { EndIsTerminal(c, e); }
      }
    }
  }

  lemma ContradictsIs(c: Chain)
    ensures Contradicts(c) <==> AtOdds(c)
    ensures Duplicated(c) <==> Doubled(c)
  {
    assert forall p: Placed :: OutcomeOf(p.row) != ACKNOWLEDGED && OutcomeOf(p.row) != SUPERSEDED <==>
      IsOpaque(p.row) || (p.row.payload.outcome != Some("acknowledged") && p.row.payload.outcome != Some("superseded"));
  }

  lemma ExpectationMeans(c: Chain, attribute: string, value: Reading)
    ensures ExpectationFor(c) == Some((attribute, value)) <==> Expects(c, attribute, value)
  {
  }

  lemma FlagsIs(c: Chain, r: Event)
    ensures Flags(c, r) <==> OffExpectation(c, r)
  {
    hide Chain.WindowEndUs, Expects, ExpectationFor;
    if Flags(c, r) {
      var (attribute, value) := ExpectationFor(c).value;
      ExpectationMeans(c, attribute, value);
      assert Misreports(c, r, attribute, value);
    }
    if attribute, value :| Misreports(c, r, attribute, value) {
      ExpectationMeans(c, attribute, value);
    }
  }

  // ---------------------------------------------------------------- runs

  predicate RunUnfinished(k: Case, run: Run) {
    run.triggered.Some? && run.terminals == [] && k.toUs - run.triggered.value.ingest > k.graceUs
  }

  /** The completion of the lowest position. */
  lemma {:induction false} FirstCompletionMeans(run: Run)
    ensures FirstCompletion(run).None? <==> forall e :: e in run.terminals ==> !e.kind.AutomationCompleted?
    ensures FirstCompletion(run).Some? ==>
      && FirstCompletion(run).value in run.terminals && FirstCompletion(run).value.kind.AutomationCompleted?
      && forall e :: e in run.terminals && e.kind.AutomationCompleted? ==> FirstCompletion(run).value.position <= e.position
  {
    var all := Select(run.terminals, (e: Event) => e.kind.AutomationCompleted?);
    SortRowsInOrder(all);
    var sorted := SortRows(all);
    NonEmptyHas(sorted);
    hide SortRows, Select;
    if |sorted| > 0 {
      assert sorted[0] in sorted;
      forall e | e in run.terminals && e.kind.AutomationCompleted? ensures sorted[0].position <= e.position {
        var i :| 0 <= i < |sorted| && sorted[i] == e;
      }
    }
  }

  /** The commands of a run: issued under its trigger's correlation, from the trigger up to the completion. */
  lemma IssuedIdsMean(run: Run, term: Event, order: seq<Id>, chains: map<Id, Chain>)
    requires forall i, j :: 0 <= i < j < |order| ==> order[i] != order[j]
    ensures forall id :: id in IssuedIds(run, term, order, chains) <==>
      && id in order && id in chains && run.triggered.Some?
      && chains[id].issue.correlation == run.triggered.value.correlation
      && run.triggered.value.ingest <= chains[id].issue.ingest <= term.ingest
    ensures |IssuedIds(run, term, order, chains)| == |set id | id in order && id in chains && IssuedBy(run, term, chains[id])|
  {
    SelectDistinct(order, id => id in chains && IssuedBy(run, term, chains[id]));
    hide IssuedBy;
    assert (set id | id in order && id in chains && IssuedBy(run, term, chains[id]))
      == (set id | id in IssuedIds(run, term, order, chains));
  }

  lemma {:induction false} SelectDistinct(s: seq<Id>, p: Id -> bool)
    requires forall i, j :: 0 <= i < j < |s| ==> s[i] != s[j]
    ensures |Select(s, p)| == |set x | x in Select(s, p)|
  {
    if |s| > 0 {
      SelectDistinct(s[1..], p);
      var rest := Select(s[1..], p);
      assert forall j :: 0 <= j < |s[1..]| ==> s[1..][j] == s[j + 1];
      assert s[0] !in s[1..];
      assert Select(s, p) == if p(s[0]) then [s[0]] + rest else rest;
      if p(s[0]) { assert (set x | x in Select(s, p)) == {s[0]} + (set x | x in rest); }
    } else {
      assert (set x | x in Select(s, p)) == {};
    }
  }

  /** The completion carries its status and both its counts. */
  predicate Complete(term: Event) {
    !IsOpaque(term) && !term.payload.finalStatus.Absent? && !term.payload.actionCount.Absent? && !term.payload.commandCount.Absent?
  }

  predicate Counts(s: Slot<Count>, n: int) {
    s == Has(Whole(n)) || (s.Has? && s.value.Fraction? && s.value.x == n as real)
  }

  /** COMPLETED with an action and no command. */
  ghost predicate Hollow(term: Event) {
    && Complete(term) && term.payload.finalStatus == Has("COMPLETED")
    && (exists n :: n >= 1 && term.payload.actionCount == Has(Whole(n))) && Counts(term.payload.commandCount, 0)
  }

  /** COMPLETED, triggered in the window, and not as many commands as it counts. */
  ghost predicate Miscounted(run: Run, term: Event, issued: nat) {
    && Complete(term) && term.payload.finalStatus == Has("COMPLETED") && !Hollow(term)
    && run.triggered.Some? && !Counts(term.payload.commandCount, issued)
  }

  ghost predicate EffectFails(run: Run, order: seq<Id>, chains: map<Id, Chain>) {
    exists term :: FirstCompletion(run) == Some(term)
      && (!Complete(term) || Miscounted(run, term, |IssuedIds(run, term, order, chains)|))
  }

  ghost predicate EffectHollow(run: Run) { exists term :: FirstCompletion(run) == Some(term) && Hollow(term) }

  lemma EffectWordMeans(run: Run, order: seq<Id>, chains: map<Id, Chain>)
    ensures EffectWord(run, order, chains) == FAIL <==> EffectFails(run, order, chains)
    ensures EffectWord(run, order, chains) == FLAGGED <==> EffectHollow(run)
  {
    hide FirstCompletion, IssuedIds;
    if FirstCompletion(run).Some? {
      HollowIs(FirstCompletion(run).value);
      hide Hollow;
    }
  }

  lemma HollowIs(term: Event)
    ensures Hollow(term) <==>
      && Complete(term) && term.payload.finalStatus == Has("COMPLETED") && term.payload.actionCount.Has?
      && term.payload.actionCount.value.Whole? && term.payload.actionCount.value.n >= 1 && IsNumber(term.payload.commandCount, 0)
  {
  }

  // ---------------------------------------------------------------- the verdict

  /** What keeps a window from being graded. */
  ghost predicate Ungradable(k: Case, attestations: seq<Word>) {
    || CANNOT_GRADE in attestations
    || (exists e :: e in k.events && e.kind.CommandResult? && IsOpaque(e))
    || (exists e :: e in k.events && e.kind.OffCatalog?)
    || k.Book().unplaced != []
  }

  ghost predicate SomeCommandFails(k: Case) {
    var chains := k.Book().chains;
    exists id :: id in chains && (Unfinished(k, chains[id]) || Doubled(chains[id]) || AtOdds(chains[id]))
  }

  ghost predicate SomeRunFails(k: Case) {
    var b, runs := k.Book(), k.Runs().runs;
    exists r :: r in runs && (RunUnfinished(k, runs[r]) || |runs[r].terminals| >= 2 || EffectFails(runs[r], b.order, b.chains))
  }

  ghost predicate SomethingFlagged(k: Case) {
    var chains, runs := k.Book().chains, k.Runs().runs;
    || (exists id, r :: id in chains && r in k.events && OffExpectation(chains[id], r))
    || (exists r :: r in runs && EffectHollow(runs[r]))
  }

  /** CANNOT-GRADE over FAIL over FLAGGED over PASS. */
  lemma {:induction false} FoldMeans(layer: seq<Word>)
    ensures Fold(layer) == CANNOT_GRADE <==> CANNOT_GRADE in layer
    ensures Fold(layer) == FAIL <==> CANNOT_GRADE !in layer && FAIL in layer
    ensures Fold(layer) == FLAGGED <==> CANNOT_GRADE !in layer && FAIL !in layer && FLAGGED in layer
    ensures Fold(layer) == PASS <==> CANNOT_GRADE !in layer && FAIL !in layer && FLAGGED !in layer
  {
  }

  lemma CommandWordsMean(k: Case, chains: map<Id, Chain>)
    ensures WordI(k, chains) == CANNOT_GRADE <==> exists e :: e in k.events && e.kind.CommandResult? && IsOpaque(e)
    ensures WordI(k, chains) in {CANNOT_GRADE, FAIL, PASS} && WordIII(chains) in {FAIL, PASS}
    ensures WordI(k, chains) != CANNOT_GRADE ==>
      ((WordI(k, chains) == FAIL || WordIII(chains) == FAIL) <==>
        exists id :: id in chains && (Unfinished(k, chains[id]) || Doubled(chains[id]) || AtOdds(chains[id])))
  {
    forall id | id in chains
      ensures LeftOpen(k, chains[id]) <==> Unfinished(k, chains[id])
      ensures Contradicts(chains[id]) <==> AtOdds(chains[id])
      ensures Duplicated(chains[id]) <==> Doubled(chains[id])
    {
      LeftOpenIs(k, chains[id]);
      ContradictsIs(chains[id]);
    }
    assert forall e :: IsOpaqueResult(e) <==> e.kind.CommandResult? && IsOpaque(e);
    hide LeftOpen, Contradicts, Duplicated, Unfinished, Doubled, AtOdds, IsOpaqueResult, IsOpaque;
  }

  lemma ReportWordMeans(k: Case, chains: map<Id, Chain>)
    ensures WordV(k, chains) in {FLAGGED, PASS}
    ensures WordV(k, chains) == FLAGGED <==> exists id, r :: id in chains && r in k.events && OffExpectation(chains[id], r)
  {
    forall id, r | id in chains ensures Flags(chains[id], r) <==> OffExpectation(chains[id], r) { FlagsIs(chains[id], r); }
    hide Flags, OffExpectation;
  }

  lemma RunWordsMean(k: Case, order: seq<Id>, chains: map<Id, Chain>, runs: map<Option<Id>, Run>)
    ensures WordII(k, runs) in {FAIL, PASS} && WordVIII(order, chains, runs) in {FAIL, FLAGGED, PASS}
    ensures (WordII(k, runs) == FAIL || WordVIII(order, chains, runs) == FAIL) <==>
      exists r :: r in runs && (RunUnfinished(k, runs[r]) || |runs[r].terminals| >= 2 || EffectFails(runs[r], order, chains))
    ensures WordVIII(order, chains, runs) != FAIL ==>
      (WordVIII(order, chains, runs) == FLAGGED <==> exists r :: r in runs && EffectHollow(runs[r]))
  {
    forall r | r in runs
      ensures EffectWord(runs[r], order, chains) == FAIL <==> EffectFails(runs[r], order, chains)
      ensures EffectWord(runs[r], order, chains) == FLAGGED <==> EffectHollow(runs[r])
    {
      EffectWordMeans(runs[r], order, chains);
    }
    assert forall r :: r in runs ==> (RunLeftOpen(k, runs[r]) <==> RunUnfinished(k, runs[r]));
    hide EffectWord, EffectFails, EffectHollow, RunLeftOpen, RunUnfinished;
  }

  lemma LayerHas(k: Case, attestations: seq<Word>, w: Word)
    ensures var b, r := k.Book(), k.Runs();
      w in Layer(k) + attestations <==>
        || w in attestations || w == PASS
        || WordI(k, b.chains) == w || WordII(k, r.runs) == w || WordIII(b.chains) == w || WordIV(k, b.unplaced) == w
        || WordV(k, b.chains) == w || WordVIII(b.order, b.chains, r.runs) == w
  {
    hide WordI, WordII, WordIII, WordIV, WordV, WordVIII, BuildBook, BuildRunBook;
    var layer := Layer(k);
    assert layer[0] in layer && layer[1] in layer && layer[2] in layer && layer[3] in layer && layer[4] in layer
           && layer[5] in layer && layer[7] in layer;
    assert w in layer + attestations <==> w in layer || w in attestations;
  }

  /** Each of the four verdicts by the rows of the window: a row that cannot be read or placed keeps it
      from being graded; else a command or a run that fails, fails it; else a report or a run that is
      flagged, flags it; an attestation may do the same; and nothing of the kind is a PASS. */
  lemma {:induction false} VerdictIs(k: Case, attestations: seq<Word>)
    ensures var verdict := Fold(Layer(k) + attestations);
      && (verdict == CANNOT_GRADE <==> Ungradable(k, attestations))
      && (verdict == FAIL <==> !Ungradable(k, attestations) && (FAIL in attestations || SomeCommandFails(k) || SomeRunFails(k)))
      && (verdict == FLAGGED <==>
            && !Ungradable(k, attestations) && !(FAIL in attestations || SomeCommandFails(k) || SomeRunFails(k))
            && (FLAGGED in attestations || SomethingFlagged(k)))
      && (verdict == PASS <==>
            && !Ungradable(k, attestations) && !(FAIL in attestations || SomeCommandFails(k) || SomeRunFails(k))
            && !(FLAGGED in attestations || SomethingFlagged(k)))
  {
    var b, r := k.Book(), k.Runs();
    FoldMeans(Layer(k) + attestations);
    LayerHas(k, attestations, CANNOT_GRADE);
    LayerHas(k, attestations, FAIL);
    LayerHas(k, attestations, FLAGGED);
    CommandWordsMean(k, b.chains);
    ReportWordMeans(k, b.chains);
    RunWordsMean(k, b.order, b.chains, r.runs);
    hide Fold, Layer, Case.Book, Case.Runs, WordI, WordII, WordIII, WordV, WordVIII, Unfinished, Doubled, AtOdds, RunUnfinished,
      OffExpectation, EffectFails, EffectHollow;
  }
}
