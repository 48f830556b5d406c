/** How a poll and a live run can end, and what each ending says about what was seen. */
module Endings {
  import opened Acts
  import opened ApiLines
  import opened EvidenceState
  import opened LogWindow
  import opened NewRuns
  import opened Options
  import opened Progress
  import opened Scenarios

  datatype Reason =
    | ForbiddenHit(which: nat, line: nat) | NotSeen(positive: nat) | ApiFailed(positive: nat) | OnTheRecord
    | FixtureLine(first: nat)   // the first line of a fixture run that failed

  /** What the run was at: a positive, a forbidden line, a gated act a positive released, or the close. */
  datatype Place = InLine(i: nat) | InCheck(k: nat) | InAct(g: Gated, i: nat) | AtClose

  datatype Outcome = Pass | Failed(why: Reason) | RefusedRun(cause: Refusal, at: Place) | NoKeyboard(at: Place)

  datatype PollEnd = Behind | Again | Over(outcome: Outcome)

  /** Where an api line's evaluation leads. */
  function EndOfApi(state: ApiState, i: nat): PollEnd {
    match state
    case Fine => Behind
    case OnRecord => Behind
    case NotYet => Again
    case Wrong => Over(Failed(ApiFailed(i)))
    case Declined(why) => Over(RefusedRun(why, InLine(i)))
  }

  /** Where a log line's evaluation leads. */
  function EndOfLog(v: LogVerdict, i: nat): PollEnd {
    match v
    case Satisfied(_) => Behind
    case Waiting => Again
    case Refused(why) => Over(RefusedRun(why, InLine(i)))
  }

  /** Where each state of an api line leads: on, again, or to the end it names. */
  lemma ApiEnds(state: ApiState, i: nat)
    ensures EndOfApi(state, i) == Behind <==> state.Fine? || state.OnRecord?
    ensures EndOfApi(state, i) == Again <==> state.NotYet?
    ensures EndOfApi(state, i) == Over(Failed(ApiFailed(i))) <==> state.Wrong?
    ensures state.Declined? ==> EndOfApi(state, i) == Over(RefusedRun(state.why, InLine(i)))
  {
  }

  lemma LogEnds(v: LogVerdict, i: nat)
    ensures EndOfLog(v, i) == Behind <==> v.Satisfied?
    ensures EndOfLog(v, i) == Again <==> v.Waiting?
    ensures v.Refused? ==> EndOfLog(v, i) == Over(RefusedRun(v.why, InLine(i)))
  {
  }

  // ---------------------------------------------------------------- what a refusal names

  predicate AnchorUnbound(w: World, lets: Lets, a: Assert) {
    a.NewRunAfter? && (Token(w, lets, a.anchor).None? || Token(w, lets, Token(w, lets, a.anchor).value).None?)
  }

  /** Some reference the line reads does not resolve. */
  predicate LineUnbound(w: World, lets: Lets, p: Positive) {
    match p
    case Log(tokens, _, sameLine, _, _, _, _) => Tokens(w, lets, tokens).None? || Tokens(w, lets, sameLine).None?
    case Api(asserts, _, _, letNames) =>
      (exists name :: name in letNames && name !in lets) || exists a :: a in asserts && AnchorUnbound(w, lets, a)
  }

  lemma {:induction false} AssertsStepRefusal(
    w: World, v: View, known: Known, p: Positive, asserts: seq<Assert>, rows: seq<RunRow>, tick: nat)
    requires p.Api? && forall a :: a in asserts ==> a in p.asserts
    ensures var s := AssertsStep(w, v, known, p.records, asserts, rows, tick).state;
      s.Declined? ==> s.why == VacuousAnchor || (s.why == Unbound && LineUnbound(w, v.lets, p))
    decreases asserts
  {
    hide Token, RunVerdict, RunReads;
    if |asserts| > 0 {
      var s := AssertStep(w, v, known, p.records, asserts[0], rows, tick);
      if s.state.Fine? {
        AssertsStepRefusal(w, v, known, p, asserts[1..], rows, s.tick);
      } else if s.state == Declined(Unbound) {
        assert AnchorUnbound(w, v.lets, asserts[0]);
      }
    }
  }

  /** An evaluation of an api line is refused over a reference of the line that does not resolve,
      or over an anchor of the line that resolves anew to a token never observed. */
  lemma {:induction false} ApiRefusalMeans(w: World, v: View, known: Known, p: Positive, at: nat)
    requires p.Api? && ApiStep(w, v, known, p, at).state.Declined?
    ensures var why := ApiStep(w, v, known, p, at).state.why;
      (why == Unbound && LineUnbound(w, v.lets, p)) || (why == VacuousAnchor && VacuousLine(w, v, p))
  {
    hide Token, AssertsStep, VacuousLine;
    ApiStepSound(w, v, known, p, at);
    if w.body(at).Some? {
      AssertsStepRefusal(w, v, known, p, p.asserts, w.body(at).value, at + 1);
    }
  }

  /** A log line is refused exactly when a reference of it does not resolve, or its extraction or
      minimum is not a number. */
  lemma {:induction false} LogRefusalMeans(w: World, lets: Lets, lines: seq<string>, p: Positive)
    requires p.Log? && p.count >= 1
    ensures LogVerdictOf(w, lets, lines, p) == Refused(Unbound) <==> LineUnbound(w, lets, p)
  {
    hide Tokens, MatchIndices, Extracted;
    var tokens, same := Tokens(w, lets, p.tokens), Tokens(w, lets, p.sameLine);
    if tokens.Some? && same.Some? && p.extract.Some? {
      var matches := MatchIndices(lines, tokens.value, same.value);
      if |matches| >= p.count {
        assert matches[|matches| - 1] in matches;
        ExtractionBinds(w, lines, p.extract.value, matches[|matches| - 1]);
      }
    }
  }

  lemma ExtractionBinds(w: World, lines: seq<string>, e: Extraction, last: nat)
    requires last < |lines|
    ensures Extracted(w, lines, e, last) != Refused(Unbound)
  {
  }

  // ---------------------------------------------------------------- what an ending says

  predicate Polled(b: Books, i: nat) { |b.polled| > 0 && b.polled[|b.polled| - 1].line == i }

  /** The window is what the log held at the last read. */
  predicate Latest(w: World, v: View, b: Books) {
    |b.polled| > 0 && v.lines == CompleteLines(w.text(b.polled[|b.polled| - 1].at))
  }

  /** The evaluation right after the last read. */
  function LastAsk(b: Books, i: nat): Ask
    requires Polled(b, i)
  {
    Ask(i, b.polled[|b.polled| - 1].at + 1)
  }

  /** The operator entries the line reads are bound. */
  predicate LineTyped(s: Scenario, lets: Lets, p: Positive) {
    forall n :: n in p.letNames && n in s.operators ==> n in lets
  }

  /** The positive in turn, with its entries typed, is what was refused: a log line by its verdict on
      the window, an api line by its evaluation after the last read. */
  ghost predicate LineRefused(w: World, s: Scenario, v: View, known: Known, b: Books, cause: Refusal, i: nat) {
    && i == b.behind && i < |s.positives| && LineTyped(s, v.lets, s.positives[i])
    && (s.positives[i].Log? ==>
        && s.positives[i].count >= 1 && LogVerdictOf(w, v.lets, v.lines, s.positives[i]) == Refused(cause)
        && (cause != Unbound ==> Polled(b, i) && Latest(w, v, b)))
    && (s.positives[i].Api? ==>
        Polled(b, i) && Latest(w, v, b) && Judged(w, s, v, known, LastAsk(b, i)).state == Declined(cause))
  }

  predicate ClearedUpTo(w: World, s: Scenario, v: View, k: nat) {
    k <= |s.forbidden| && forall f :: f in s.forbidden[..k] ==> Cleared(w, v, f)
  }

  /** A forbidden token stands in its scope on a line of the window, and the forbidden lines before are clear. */
  predicate HitAt(w: World, s: Scenario, v: View, which: nat, line: nat) {
    && which < |s.forbidden| && line < |v.lines| && ClearedUpTo(w, s, v, which)
    && var f := s.forbidden[which];
      && Token(w, v.lets, f.token).Some? && Contains(v.lines[line], Token(w, v.lets, f.token).value)
      && (f.after.Some? ==>
          && Token(w, v.lets, f.after.value).Some? && Token(w, v.lets, f.after.value).value in v.index
          && v.index[Token(w, v.lets, f.after.value).value] < line)
  }

  /** The k-th forbidden line does not resolve, and those before it are clear. */
  predicate CheckRefused(w: World, s: Scenario, v: View, k: nat) {
    k < |s.forbidden| && ClearedUpTo(w, s, v, k) && !Resolves(w, v.lets, s.forbidden[k])
  }

  /** An entry declared no later than some entry among `names`. */
  predicate AskedFor(operators: seq<string>, n: string, names: seq<string>) {
    exists i, j :: 0 <= i <= j < |operators| && operators[i] == n && operators[j] in names
  }

  /** The last interaction asked for an entry that is needed and not bound, and got none. */
  ghost predicate KeyboardGone(w: World, s: Scenario, lets: Lets, tick: nat, names: seq<string>) {
    tick > 0 && exists n :: AskedFor(s.operators, n, names) && n !in lets && w.typed(tick - 1, n).None?
  }

  /** Who needs the entries: the positive in turn, an act the last one released, or the close. */
  ghost predicate NoEntry(w: World, s: Scenario, v: View, b: Books, tick: nat, at: Place) {
    match at
    case InLine(i) => i == b.behind && i < |s.positives| && KeyboardGone(w, s, v.lets, tick, s.positives[i].letNames)
    case InAct(g, i) =>
      && i + 1 == b.behind && i < |s.positives| && g in s.gated && Releases(w, v.lets, g, s.positives[i])
      && KeyboardGone(w, s, v.lets, tick, g.letNames)
    case AtClose => b.behind == |s.positives| && KeyboardGone(w, s, v.lets, tick, s.operators)
    case InCheck(_) => false
  }

  ghost predicate Undecided(w: World, s: Scenario, v: View, known: Known, b: Books, i: nat) {
    && i == b.behind && i < |s.positives| && Polled(b, i) && Latest(w, v, b)
    && (s.positives[i].Log? ==>
        s.positives[i].count >= 1 && LogVerdictOf(w, v.lets, v.lines, s.positives[i]).Waiting?)
    && (s.positives[i].Api? ==> Judged(w, s, v, known, LastAsk(b, i)).state.NotYet?)
  }

  /** The positive's time, counted from its first read, has passed. */
  ghost predicate Overdue(b: Books, i: nat, within: nat, clock: nat) {
    exists r :: r in b.polled && r.line == i && clock > r.when + 1000 * within
  }

  /** A verdict other than PASS says what the run saw, of the positive it was at. */
  ghost predicate Explained(w: World, s: Scenario, v: View, known: Known, b: Books, tick: nat, clock: nat, out: Outcome) {
    match out
    case Pass => false
    case Failed(ForbiddenHit(which, line)) => Latest(w, v, b) && HitAt(w, s, v, which, line)
    case Failed(NotSeen(i)) =>
      && Undecided(w, s, v, known, b, i) && Overdue(b, i, s.positives[i].within, clock)
      && (s.positives[i].Api? ==> !s.positives[i].records)
    case Failed(ApiFailed(i)) =>
      && i == b.behind && i < |s.positives| && s.positives[i].Api? && Polled(b, i) && Latest(w, v, b)
      && Judged(w, s, v, known, LastAsk(b, i)).state == Wrong
    case Failed(OnTheRecord) =>
      Latest(w, v, b) && AllCleared(w, s, v) && b.behind == |s.positives| && b.recorded != []
    case Failed(FixtureLine(_)) => false
    case RefusedRun(cause, InLine(i)) => LineRefused(w, s, v, known, b, cause, i)
    case RefusedRun(cause, InCheck(k)) => cause == Unbound && Latest(w, v, b) && CheckRefused(w, s, v, k)
    case RefusedRun(cause, InAct(g, i)) =>
      cause == Unbound && i + 1 == b.behind && g in s.gated && Token(w, v.lets, g.after).None?
    case RefusedRun(_, AtClose) => false
    case NoKeyboard(at) => NoEntry(w, s, v, b, tick, at)
  }

  lemma ExplainedIsNoPass(w: World, s: Scenario, v: View, known: Known, b: Books, tick: nat, clock: nat, out: Outcome)
    requires Explained(w, s, v, known, b, tick, clock, out)
    ensures !out.Pass?
  {
  }

  /** Where an evaluation of an api line ends the run, the ending is explained by that evaluation. */
  lemma {:induction false} ApiEndExplained(
    w: World, s: Scenario, v: View, known: Known, b: Books, tick: nat, clock: nat, i: nat)
    requires i == b.behind && i < |s.positives| && s.positives[i].Api? && LineTyped(s, v.lets, s.positives[i])
    requires Polled(b, i) && Latest(w, v, b)
    ensures var end := EndOfApi(Judged(w, s, v, known, LastAsk(b, i)).state, i);
      && (end.Over? ==> Explained(w, s, v, known, b, tick, clock, end.outcome))
      && (end.Again? ==> Undecided(w, s, v, known, b, i))
  {
    hide Judged, Latest, LineTyped, KeyboardGone;
  }

  /** So is the ending of a log line, by the window as it was just read. */
  lemma {:induction false} LogEndExplained(
    w: World, s: Scenario, v: View, known: Known, b: Books, tick: nat, clock: nat, i: nat)
    requires i == b.behind && i < |s.positives| && s.positives[i].Log? && s.positives[i].count >= 1
    requires LineTyped(s, v.lets, s.positives[i]) && Polled(b, i) && Latest(w, v, b)
    ensures var end := EndOfLog(LogVerdictOf(w, v.lets, v.lines, s.positives[i]), i);
      && (end.Over? ==> Explained(w, s, v, known, b, tick, clock, end.outcome))
      && (end.Again? ==> Undecided(w, s, v, known, b, i))
  {
    hide LogVerdictOf, Latest, LineTyped;
  }
}
